/** What can stand between two edits of one row so that merging them is not
    running them one by one: an edit that gives another row the key, a delete
    of the key that the second edit gives, an insert with the key, and a schema
    change that touches the table. */
module MergeInputs {
  import opened Changesets
  import opened Merge

  const T: TableId := TableId("", "t")

  /** An edit of the row with that id. */
  function Edit(id: int, column: string, v: Value): CellChange {
    CellChange("", "t", ["id"], [Int(id)], column, Nil, v)
  }

  /** Two edits of one row around another change. */
  function Around(a: CellChange, x: Change, b: CellChange): seq<Change> { [Cell(a), x, Cell(b)] }

  predicate Elsewhere(a: CellChange, x: Change) {
    match x
    case Cell(d) => CellRow(d) != CellRow(a)
    case Delete(d) => RowId(d.database, d.table, d.pkVals) != CellRow(a)
    case _ => true
  }

  lemma AroundEach(a: CellChange, x: Change, b: CellChange)
    ensures Each(Around(a, x, b)) == [UpdateOf(a), StmtOf(x), UpdateOf(b)]
  {
    hide UpdateOf;
  }

  /** The second edit goes where the first one is. */
  lemma AroundMerged(a: CellChange, x: Change, b: CellChange)
    requires CellRow(a) == CellRow(b) && Elsewhere(a, x)
    ensures Merged(Around(a, x, b)) == [MultiUpdate([a, b]), StmtOf(x)]
  {
    hide JoinNul, RenderAll, MultiUpdate, CellRow, RowId, CellsFor, FirstAt;
    var ops, gone, rid := Around(a, x, b), DeletedRows(Around(a, x, b)), CellRow(a);
    AroundGone(a, x, b);
    var one, two := [Cell(a)], [Cell(a), x];
    assert one + [x] == two && two + [Cell(b)] == ops && [] + one == one;
    FirstAtSnoc([], gone, Cell(a), rid);
    assert FirstAt([], gone, rid) == 0 by { NoneFirst(gone, rid); }
    StartsRow(gone, a);
    FirstAtSnoc(one, gone, x, rid);
    FirstAtSnoc(two, gone, Cell(b), rid);
    CellsForSnoc([], gone, Cell(a), rid);
    CellsForSnoc(one, gone, x, rid);
    CellsForSnoc(two, gone, Cell(b), rid);
    NoneFor(gone, rid);
    assert CellsFor(ops, gone, rid) == [a, b];
    assert Slot(ops, gone, 0) == [MultiUpdate([a, b])];
    LaterSlot(two, gone, Cell(b));
    MiddleSlot(a, x, b, gone);
    SlotsOfThree(ops, gone);
  }

  lemma AroundGone(a: CellChange, x: Change, b: CellChange)
    requires CellRow(a) == CellRow(b) && Elsewhere(a, x)
    ensures CellRow(a) !in DeletedRows(Around(a, x, b))
  {
    hide CellRow, RowId;
  }

  lemma NoneFirst(gone: set<string>, rid: string)
    ensures FirstAt([], gone, rid) == 0
  {
  }

  lemma NoneFor(gone: set<string>, rid: string)
    ensures CellsFor([], gone, rid) == []
  {
  }

  lemma StartsRow(gone: set<string>, a: CellChange)
    requires CellRow(a) !in gone
    ensures FirstAt([Cell(a)], gone, CellRow(a)) == 0
  {
    hide CellRow;
  }

  /** What is in between keeps its own statement. */
  lemma MiddleSlot(a: CellChange, x: Change, b: CellChange, gone: set<string>)
    requires CellRow(a) == CellRow(b) && Elsewhere(a, x)
    ensures Slot(Around(a, x, b), gone, 1) == [StmtOf(x)]
  {
    hide CellRow, RowId, CellsFor, FirstAt, MultiUpdate;
    var one := [Cell(a)];
    assert one + [x] == [Cell(a), x] && [Cell(a), x] + [Cell(b)] == Around(a, x, b);
    if Merges(x, gone) {
      FirstAtSnoc([], gone, Cell(a), CellRow(x.cell));
      assert FirstAt([], gone, CellRow(x.cell)) == 0 by { NoneFirst(gone, CellRow(x.cell)); }
      assert [] + one == one;
    }
    LastSlot(one, gone, x);
    SlotSnoc([Cell(a), x], gone, Cell(b), 1);
  }

  lemma SlotsOfThree(ops: seq<Change>, gone: set<string>)
    requires |ops| == 3
    ensures Slots(ops, gone, 3) == Slot(ops, gone, 0) + Slot(ops, gone, 1) + Slot(ops, gone, 2)
  {
    hide Slot;
    assert Slots(ops, gone, 0) == [];
    assert Slots(ops, gone, 1) == [] + Slot(ops, gone, 0) == Slot(ops, gone, 0);
  }

  // ---------- running them ----------

  function DB1(rows: Rows): DB { map[T := rows] }

  lemma OnRows(server: Server, st: Stmt, rows: Rows)
    requires !st.Ddl? && st.id == T
    ensures Exec(server, st, DB1(rows)) == DB1(OnTable(st, server, rows))
  {
    hide OnTable;
  }

  lemma RunTwo(server: Server, a: Stmt, b: Stmt, db: DB)
    ensures ExecAll(server, [a, b], db) == Exec(server, b, Exec(server, a, db))
  {
    hide Exec;
    assert [a, b] == [a] + [b];
    ExecAppend(server, [a], [b], db);
    ExecOne(server, a, db);
    ExecOne(server, b, Exec(server, a, db));
  }

  lemma RunThree(server: Server, a: Stmt, b: Stmt, c: Stmt, db: DB)
    ensures ExecAll(server, [a, b, c], db) == Exec(server, c, Exec(server, b, Exec(server, a, db)))
  {
    hide Exec;
    assert [a, b, c] == [a, b] + [c];
    ExecAppend(server, [a, b], [c], db);
    RunTwo(server, a, b, db);
    ExecOne(server, c, ExecAll(server, [a, b], db));
  }

  /** Whether a row goes by that id. */
  predicate Has(r: Row, id: int) { "id" in r && r["id"] == Int(id) }

  /** Setting one column of the row with that id, and setting two. */
  function Set1(r: Row, id: int, c: string, v: Value): Row { if Has(r, id) then r[c := v] else r }

  lemma HasKey(r: Row, id: int)
    ensures Matches(r, ["id"], [Int(id)]) <==> Has(r, id)
  {
    var cols, vals := ["id"], [Int(id)];
    assert cols[0] == "id" && vals[0] == Int(id);
  }

  lemma EditSets(r: Row, id: int, c: string, v: Value)
    ensures var u := UpdateOf(Edit(id, c, v)); UpdateRow(r, u.sets, u.cols, u.vals) == Set1(r, id, c, v)
  {
    hide Matches;
    HasKey(r, id);
    assert [] + [Assign(c, v)] == [Assign(c, v)];
    SetAllSnoc(r, [], Assign(c, v));
  }

  lemma BothSet(r: Row, id: int, c: string, v: Value, d: string, w: Value)
    ensures var u := MultiUpdate([Edit(id, c, v), Edit(id, d, w)]);
            u.id == T && UpdateRow(r, u.sets, u.cols, u.vals) == if Has(r, id) then r[c := v][d := w] else r
  {
    hide Matches;
    var u := MultiUpdate([Edit(id, c, v), Edit(id, d, w)]);
    HasKey(r, id);
    assert u.sets == [Assign(c, v)] + [Assign(d, w)];
    assert [] + [Assign(c, v)] == [Assign(c, v)];
    SetAllSnoc(r, [], Assign(c, v));
    SetAllSnoc(r, [Assign(c, v)], Assign(d, w));
  }

  lemma TwoRows(p: Row, q: Row, sets: seq<Assign>, cols: seq<string>, vals: seq<Value>)
    ensures UpdateRows([p, q], sets, cols, vals) == [UpdateRow(p, sets, cols, vals), UpdateRow(q, sets, cols, vals)]
  {
    hide UpdateRow;
    assert [p, q][1..] == [q];
    OneRow(q, sets, cols, vals);
  }

  /** An edit of a table of two rows. */
  lemma EditTwo(server: Server, p: Row, q: Row, id: int, c: string, v: Value)
    ensures Exec(server, UpdateOf(Edit(id, c, v)), DB1([p, q])) == DB1([Set1(p, id, c, v), Set1(q, id, c, v)])
  {
    hide UpdateRow, UpdateRows, Set1;
    var u := UpdateOf(Edit(id, c, v));
    OnRows(server, u, [p, q]);
    TwoRows(p, q, u.sets, u.cols, u.vals);
    EditSets(p, id, c, v);
    EditSets(q, id, c, v);
  }

  lemma EditOne(server: Server, p: Row, id: int, c: string, v: Value)
    ensures Exec(server, UpdateOf(Edit(id, c, v)), DB1([p])) == DB1([Set1(p, id, c, v)])
  {
    hide UpdateRow, UpdateRows, Set1;
    var u := UpdateOf(Edit(id, c, v));
    OnRows(server, u, [p]);
    OneRow(p, u.sets, u.cols, u.vals);
    EditSets(p, id, c, v);
  }

  function Set2(r: Row, id: int, c: string, v: Value, d: string, w: Value): Row {
    if Has(r, id) then r[c := v][d := w] else r
  }

  lemma MergedTwo(server: Server, p: Row, q: Row, id: int, c: string, v: Value, d: string, w: Value)
    ensures Exec(server, MultiUpdate([Edit(id, c, v), Edit(id, d, w)]), DB1([p, q])) ==
            DB1([Set2(p, id, c, v, d, w), Set2(q, id, c, v, d, w)])
  {
    hide UpdateRow, UpdateRows;
    var u := MultiUpdate([Edit(id, c, v), Edit(id, d, w)]);
    BothSet(p, id, c, v, d, w);
    BothSet(q, id, c, v, d, w);
    OnRows(server, u, [p, q]);
    TwoRows(p, q, u.sets, u.cols, u.vals);
  }

  lemma MergedOne(server: Server, p: Row, id: int, c: string, v: Value, d: string, w: Value)
    ensures Exec(server, MultiUpdate([Edit(id, c, v), Edit(id, d, w)]), DB1([p])) == DB1([Set2(p, id, c, v, d, w)])
  {
    hide UpdateRow, UpdateRows;
    var u := MultiUpdate([Edit(id, c, v), Edit(id, d, w)]);
    BothSet(p, id, c, v, d, w);
    OnRows(server, u, [p]);
    OneRow(p, u.sets, u.cols, u.vals);
  }

  lemma RowsApart(i: int, j: int, db: string, t: string)
    requires i != j
    ensures RowId(db, t, [Int(i)]) != RowId(db, t, [Int(j)])
  {
    hide JoinNul, Render;
    var h := [db, t];
    JoinNulPrefix(h, RenderAll([Int(i)]));
    JoinNulPrefix(h, RenderAll([Int(j)]));
    OneRendered(Int(i));
    OneRendered(Int(j));
    var x, y := JoinNul(h) + ("\0" + Render(Int(i))), JoinNul(h) + ("\0" + Render(Int(j)));
    if x == y {
      assert x[|JoinNul(h)| + 1..] == Render(Int(i)) && y[|JoinNul(h)| + 1..] == Render(Int(j));
      RenderInjective(Int(i), Int(j));
    }
  }

  lemma OneRendered(v: Value)
    ensures RenderAll([v]) == [Render(v)] && JoinNul(RenderAll([v])) == Render(v)
  {
    hide Render;
  }

  // ---------- the inputs ----------

  function R(id: int, n: int): Row { map["id" := Int(id), "n" := Int(n)] }

  function N(v: int): CellChange { Edit(1, "n", Int(v)) }
  function M(v: int): CellChange { Edit(1, "m", Int(v)) }

  /** Another row gets the key in between: one by one the second edit hits it
      too. */
  lemma KeyGivenBetween(server: Server)
    ensures var ops, db := Around(N(5), Cell(Edit(2, "id", Int(1))), M(6)), DB1([R(1, 0), R(2, 0)]);
            ExecAll(server, Merged(ops), db) != ExecAll(server, Each(ops), db)
  {
    hide Exec, ExecAll, Merged, Each, MultiUpdate, UpdateOf, CellRow;
    var x := Edit(2, "id", Int(1));
    var db := DB1([R(1, 0), R(2, 0)]);
    assert CellRow(N(5)) == CellRow(M(6)) && CellRow(x) != CellRow(N(5)) by {
      RowsApart(1, 2, "", "t");
      RowsOf();
    }
    AroundMerged(N(5), Cell(x), M(6));
    AroundEach(N(5), Cell(x), M(6));
    RunTwo(server, MultiUpdate([N(5), M(6)]), UpdateOf(x), db);
    RunThree(server, UpdateOf(N(5)), UpdateOf(x), UpdateOf(M(6)), db);
    var p, q := R(1, 0), R(2, 0);
    MergedTwo(server, p, q, 1, "n", Int(5), "m", Int(6));
    EditTwo(server, Set2(p, 1, "n", Int(5), "m", Int(6)), q, 2, "id", Int(1));
    EditTwo(server, p, q, 1, "n", Int(5));
    EditTwo(server, Set1(p, 1, "n", Int(5)), q, 2, "id", Int(1));
    EditTwo(server, Set1(p, 1, "n", Int(5)), q["id" := Int(1)], 1, "m", Int(6));
    assert "m" !in q["id" := Int(1)];
    assert DB1([Set2(p, 1, "n", Int(5), "m", Int(6)), q["id" := Int(1)]])[T][1] == q["id" := Int(1)];
  }

  /** The key that the second edit gives is deleted in between: one by one the
      row escapes. */
  lemma KeyDeletedBetween(server: Server)
    ensures var x := Delete(RowDelete("", "t", ["id"], [Int(2)]));
            var ops, db := Around(N(5), x, Edit(1, "id", Int(2))), DB1([R(1, 0)]);
            ExecAll(server, Merged(ops), db) != ExecAll(server, Each(ops), db)
  {
    hide Exec, ExecAll, Merged, Each, MultiUpdate, UpdateOf, CellRow, Matches;
    var d, b := RowDelete("", "t", ["id"], [Int(2)]), Edit(1, "id", Int(2));
    var x, db, p := Delete(d), DB1([R(1, 0)]), R(1, 0);
    assert CellRow(N(5)) == CellRow(b) != RowId("", "t", [Int(2)]) by {
      RowsApart(1, 2, "", "t");
      RowsOf();
    }
    AroundMerged(N(5), x, b);
    AroundEach(N(5), x, b);
    RunTwo(server, MultiUpdate([N(5), b]), StmtOf(x), db);
    RunThree(server, UpdateOf(N(5)), StmtOf(x), UpdateOf(b), db);
    MergedOne(server, p, 1, "n", Int(5), "id", Int(2));
    EditOne(server, p, 1, "n", Int(5));
    DeleteOne(server, p["n" := Int(5)]["id" := Int(2)], d);
    DeleteOne(server, p["n" := Int(5)], d);
    EditOne(server, p["n" := Int(5)], 1, "id", Int(2));
    assert |DB1([])[T]| == 0 && |DB1([p["n" := Int(5)]["id" := Int(2)]])[T]| == 1;
  }

  lemma DeleteOne(server: Server, p: Row, d: RowDelete)
    requires d == RowDelete("", "t", ["id"], [Int(2)])
    ensures Exec(server, StmtOf(Delete(d)), DB1([p])) == DB1(if Has(p, 2) then [] else [p])
  {
    HasKey(p, 2);
    hide Matches;
    OnRows(server, StmtOf(Delete(d)), [p]);
    var rows, none: Rows := [p], [];
    assert rows[1..] == none && DeleteRows(none, d.pkCols, d.pkVals) == none;
    assert rows + none == rows && none + none == none;
  }

  /** A row with the key is inserted in between: one by one the second edit hits
      it too. */
  lemma InsertedBetween(server: Server, r: RowInsert)
    requires r.database == "" && r.table == "t" && server.stored(r) == R(1, 0)
    ensures var ops, db := Around(N(5), Insert(r), M(6)), DB1([R(1, 0)]);
            ExecAll(server, Merged(ops), db) != ExecAll(server, Each(ops), db)
  {
    hide Exec, ExecAll, Merged, Each, MultiUpdate, UpdateOf, CellRow;
    var x, db, p := Insert(r), DB1([R(1, 0)]), R(1, 0);
    RowsOf();
    AroundMerged(N(5), x, M(6));
    AroundEach(N(5), x, M(6));
    RunTwo(server, MultiUpdate([N(5), M(6)]), StmtOf(x), db);
    RunThree(server, UpdateOf(N(5)), StmtOf(x), UpdateOf(M(6)), db);
    MergedOne(server, p, 1, "n", Int(5), "m", Int(6));
    EditOne(server, p, 1, "n", Int(5));
    InsertOne(server, Set2(p, 1, "n", Int(5), "m", Int(6)), r);
    InsertOne(server, Set1(p, 1, "n", Int(5)), r);
    EditTwo(server, Set1(p, 1, "n", Int(5)), p, 1, "m", Int(6));
    assert "m" !in p && "m" in Set1(p, 1, "m", Int(6));
    assert DB1([Set2(p, 1, "n", Int(5), "m", Int(6)), p])[T][1] == p;
  }

  lemma InsertOne(server: Server, p: Row, r: RowInsert)
    requires r.database == "" && r.table == "t"
    ensures Exec(server, StmtOf(Insert(r)), DB1([p])) == DB1([p, server.stored(r)])
  {
    OnRows(server, StmtOf(Insert(r)), [p]);
    assert [p] + [server.stored(r)] == [p, server.stored(r)];
  }

  /** A column is added in between, empty in every row: one by one the edit of it
      comes after. */
  lemma ColumnAddedBetween(server: Server, c: SchemaChange)
    requires forall r: Row :: server.alter(c, DB1([r])) == DB1([r["m" := Nil]])
    ensures var ops, db := Around(N(5), Schema(c), M(6)), DB1([R(1, 0)]);
            ExecAll(server, Merged(ops), db) != ExecAll(server, Each(ops), db)
  {
    hide ExecAll, Merged, Each, MultiUpdate, UpdateOf, CellRow, Set1, Set2, R;
    var x, db, p := Schema(c), DB1([R(1, 0)]), R(1, 0);
    RowsOf();
    AroundMerged(N(5), x, M(6));
    AroundEach(N(5), x, M(6));
    RunTwo(server, MultiUpdate([N(5), M(6)]), StmtOf(x), db);
    RunThree(server, UpdateOf(N(5)), StmtOf(x), UpdateOf(M(6)), db);
    MergedOne(server, p, 1, "n", Int(5), "m", Int(6));
    EditOne(server, p, 1, "n", Int(5));
    var q := Set1(p, 1, "n", Int(5))["m" := Nil];
    EditOne(server, q, 1, "m", Int(6));
    assert Exec(server, StmtOf(x), DB1([Set2(p, 1, "n", Int(5), "m", Int(6))])) ==
           DB1([Set2(p, 1, "n", Int(5), "m", Int(6))["m" := Nil]]);
    assert Exec(server, StmtOf(x), DB1([Set1(p, 1, "n", Int(5))])) == DB1([q]);
    LastEdit();
    assert DB1([Set1(q, 1, "m", Int(6))])[T][0]["m"] == Int(6);
    assert DB1([Set2(p, 1, "n", Int(5), "m", Int(6))["m" := Nil]])[T][0]["m"] == Nil;
  }

  lemma LastEdit()
    ensures var q := Set1(R(1, 0), 1, "n", Int(5))["m" := Nil]; Set1(q, 1, "m", Int(6)) == q["m" := Int(6)]
  {
  }

  lemma RowsOf()
    ensures CellRow(N(5)) == CellRow(M(6)) == CellRow(Edit(1, "id", Int(2))) == RowId("", "t", [Int(1)])
    ensures CellRow(Edit(2, "id", Int(1))) == RowId("", "t", [Int(2)])
  {
    hide CellRow, RowId;
    EditRow(1, "n", Int(5));
    EditRow(1, "m", Int(6));
    EditRow(1, "id", Int(2));
    EditRow(2, "id", Int(1));
  }

  lemma EditRow(id: int, c: string, v: Value)
    ensures CellRow(Edit(id, c, v)) == RowId("", "t", [Int(id)])
  {
    hide RowId;
  }
}
