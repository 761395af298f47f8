/** The staged changeset of internal/db/changeset.go: an ordered list of changes
    paired with an index from each change's key to its position. */
module Changesets {
  import opened Text

  /** A normalized cell value; floats and times are told apart by their
      spelling. */
  datatype Value = Nil | Str(s: string) | Int(n: int) | Float(spelling: string) | Bool(b: bool) | Time(spelling: string)

  datatype CellChange = CellChange(
    database: string, table: string, pkCols: seq<string>, pkVals: seq<Value>,
    column: string, oldValue: Value, newValue: Value)

  datatype RowDelete = RowDelete(database: string, table: string, pkCols: seq<string>, pkVals: seq<Value>)

  datatype RowInsert = RowInsert(id: int, database: string, table: string, columns: seq<string>, values: seq<Value>)

  datatype SchemaKind =
    | CreateTableKind | AddColumnKind | AlterColumnKind | DropColumnKind | RenameKind | DropKind
    | TruncateKind | CreateIndexKind | DropIndexKind

  /** A schema change as the changeset sees it: its kind, the relation it
      targets, the column or index it names (if its kind names one) and
      whatever else it carries. */
  datatype SchemaChange = SchemaChange(kind: SchemaKind, database: string, table: string, name: string, detail: string) {
    predicate Names() { kind.AddColumnKind? || kind.AlterColumnKind? || kind.DropColumnKind? || kind.CreateIndexKind? || kind.DropIndexKind? }
  }

  datatype Change = Cell(cell: CellChange) | Delete(del: RowDelete) | Insert(ins: RowInsert) | Schema(schema: SchemaChange)

  // ---------- keys ----------

  function KindWord(k: SchemaKind): string {
    match k
    case CreateTableKind => "create-table"
    case AddColumnKind => "add-column"
    case AlterColumnKind => "alter-column"
    case DropColumnKind => "drop-column"
    case RenameKind => "rename"
    case DropKind => "drop"
    case TruncateKind => "truncate"
    case CreateIndexKind => "create-index"
    case DropIndexKind => "drop-index"
  }

  /** A value with its type in front. */
  function Render(v: Value): string {
    match v
    case Nil => "<nil>:<nil>"
    case Str(s) => "string:" + s
    case Int(n) => "int64:" + FormatInt(n)
    case Float(s) => "float64:" + s
    case Bool(b) => "bool:" + if b then "true" else "false"
    case Time(s) => "time.Time:" + s
  }

  function RenderAll(vals: seq<Value>): (r: seq<string>)
    ensures |r| == |vals|
  {
    seq(|vals|, i requires 0 <= i < |vals| => Render(vals[i]))
  }

  /** Parts with a NUL between them. */
  function JoinNul(parts: seq<string>): string {
    if parts == [] then "" else if |parts| == 1 then parts[0] else parts[0] + ("\0" + JoinNul(parts[1..]))
  }

  function Parts(c: Change): (r: seq<string>)
    ensures r != []
  {
    match c
    case Cell(x) => ["cell", x.database, x.table, x.column] + RenderAll(x.pkVals)
    case Delete(x) => ["del", x.database, x.table] + RenderAll(x.pkVals)
    case Insert(x) => ["ins", x.database, x.table, FormatInt(x.id)]
    case Schema(x) => ["ddl", KindWord(x.kind), x.database, x.table, if x.Names() then x.name else ""]
  }

  /** The key of a change: two changes with one key are one pending mutation. */
  function Key(c: Change): string { JoinNul(Parts(c)) }

  /** What a change is a mutation of. */
  datatype Target =
    | CellTarget(database: string, table: string, column: string, pkVals: seq<Value>)
    | RowTarget(database: string, table: string, pkVals: seq<Value>)
    | InsertTarget(database: string, table: string, id: int)
    | SchemaTarget(kind: SchemaKind, database: string, table: string, name: string)

  function TargetOf(c: Change): Target {
    match c
    case Cell(x) => CellTarget(x.database, x.table, x.column, x.pkVals)
    case Delete(x) => RowTarget(x.database, x.table, x.pkVals)
    case Insert(x) => InsertTarget(x.database, x.table, x.id)
    case Schema(x) => SchemaTarget(x.kind, x.database, x.table, if x.Names() then x.name else "")
  }

  predicate NulFree(s: string) { '\0' !in s }

  predicate NulFreeValue(v: Value) {
    match v
    case Str(s) => NulFree(s)
    case Float(s) => NulFree(s)
    case Time(s) => NulFree(s)
    case _ => true
  }

  predicate NulFreeValues(vals: seq<Value>) { forall i :: 0 <= i < |vals| ==> NulFreeValue(vals[i]) }

  /** No name and no key value of the change holds a NUL. */
  predicate NulFreeChange(c: Change) {
    match c
    case Cell(x) => NulFree(x.database) && NulFree(x.table) && NulFree(x.column) && NulFreeValues(x.pkVals)
    case Delete(x) => NulFree(x.database) && NulFree(x.table) && NulFreeValues(x.pkVals)
    case Insert(x) => NulFree(x.database) && NulFree(x.table)
    case Schema(x) => NulFree(x.database) && NulFree(x.table) && NulFree(x.name)
  }

  lemma NulSplits(a: string, x: string, b: string, y: string)
    requires NulFree(a) && NulFree(b)
    requires a + ("\0" + x) == b + ("\0" + y)
    ensures a == b && x == y
  {
    var s, t := a + ("\0" + x), b + ("\0" + y);
    assert s[|a|] == '\0' && t[|b|] == '\0';
    assert forall i :: 0 <= i < |a| ==> s[i] == a[i] != '\0';
    assert forall i :: 0 <= i < |b| ==> t[i] == b[i] != '\0';
    assert s[..|a|] == a && t[..|b|] == b;
    assert s[|a| + 1..] == x && t[|b| + 1..] == y;
  }

  lemma NulEnds(a: string, b: string, y: string)
    requires NulFree(a)
    ensures a != b + ("\0" + y)
  {
    var t := b + ("\0" + y);
    assert t[|b|] == '\0';
  }

  lemma {:induction false} JoinNulInjective(p: seq<string>, q: seq<string>)
    requires p != [] && q != [] && JoinNul(p) == JoinNul(q)
    requires (forall i :: 0 <= i < |p| ==> NulFree(p[i])) && (forall i :: 0 <= i < |q| ==> NulFree(q[i]))
    ensures p == q
  {
    if |p| == 1 && |q| > 1 {
      NulEnds(p[0], q[0], JoinNul(q[1..]));
    } else if |q| == 1 && |p| > 1 {
      NulEnds(q[0], p[0], JoinNul(p[1..]));
    } else if |p| > 1 {
      NulSplits(p[0], JoinNul(p[1..]), q[0], JoinNul(q[1..]));
      JoinNulInjective(p[1..], q[1..]);
      assert p == [p[0]] + p[1..] && q == [q[0]] + q[1..];
    }
  }

  lemma RenderInjective(a: Value, b: Value)
    requires Render(a) == Render(b)
    ensures a == b
  {
    assert Render(a)[0] == Render(b)[0];
    match a
    case Nil =>
    case Str(s) => assert Render(a)[7..] == s && Render(b)[7..] == b.s;
    case Int(n) =>
      assert Render(a)[6..] == FormatInt(n) && Render(b)[6..] == FormatInt(b.n);
      FormatIntInjective(n, b.n);
    case Float(s) => assert Render(a)[8..] == s && Render(b)[8..] == b.spelling;
    case Bool(v) => assert Render(a)[5] == (if v then 't' else 'f') && Render(b)[5] == (if b.b then 't' else 'f');
    case Time(s) => assert Render(a)[10..] == s && Render(b)[10..] == b.spelling;
  }

  lemma RenderAllInjective(a: seq<Value>, b: seq<Value>)
    requires RenderAll(a) == RenderAll(b)
    ensures a == b
  {
    forall i | 0 <= i < |a|
      ensures a[i] == b[i]
    {
      assert RenderAll(a)[i] == RenderAll(b)[i];
      RenderInjective(a[i], b[i]);
    }
  }

  lemma FormatIntNulFree(n: int)
    ensures NulFree(FormatInt(n))
  {
    DecimalChars(if n < 0 then -n else n);
  }

  lemma RenderNulFree(v: Value)
    requires NulFreeValue(v)
    ensures NulFree(Render(v))
  {
    match v
    case Int(n) => FormatIntNulFree(n);
    case _ =>
  }

  lemma RenderAllNulFree(vals: seq<Value>)
    requires NulFreeValues(vals)
    ensures forall i :: 0 <= i < |vals| ==> NulFree(RenderAll(vals)[i])
  {
    forall i | 0 <= i < |vals|
      ensures NulFree(RenderAll(vals)[i])
    {
      RenderNulFree(vals[i]);
    }
  }

  lemma PartsNulFree(c: Change)
    requires NulFreeChange(c)
    ensures forall i :: 0 <= i < |Parts(c)| ==> NulFree(Parts(c)[i])
  {
    hide Render, RenderAll, FormatInt;
    match c
    case Cell(x) => RenderAllNulFree(x.pkVals);
    case Delete(x) => RenderAllNulFree(x.pkVals);
    case Insert(x) => FormatIntNulFree(x.id);
    case Schema(x) =>
  }

  lemma KindWordInjective(a: SchemaKind, b: SchemaKind)
    requires KindWord(a) == KindWord(b)
    ensures a == b
  {
    assert |KindWord(a)| == |KindWord(b)| && KindWord(a)[0] == KindWord(b)[0];
    assert |KindWord(a)| > 5 ==> KindWord(a)[5] == KindWord(b)[5];
  }

  /** Without NULs two changes have one key exactly when they are the same kind
      of change to the same thing. */
  lemma KeyIsTarget(a: Change, b: Change)
    requires NulFreeChange(a) && NulFreeChange(b)
    ensures Key(a) == Key(b) <==> TargetOf(a) == TargetOf(b)
  {
    hide JoinNul, Render, RenderAll, FormatInt, KindWord;
    PartsNulFree(a);
    PartsNulFree(b);
    if Key(a) == Key(b) {
      JoinNulInjective(Parts(a), Parts(b));
      PartsIsTarget(a, b);
    }
  }

  lemma PartsIsTarget(a: Change, b: Change)
    requires Parts(a) == Parts(b)
    ensures TargetOf(a) == TargetOf(b)
  {
    hide Render, RenderAll, FormatInt, KindWord;
    var p, q := Parts(a), Parts(b);
    assert p[0] == q[0] && p[0][0] == q[0][0];
    assert p[1] == q[1] && p[2] == q[2];
    match a
    case Cell(x) =>
      assert p[4..] == RenderAll(x.pkVals) && q[4..] == RenderAll(b.cell.pkVals);
      RenderAllInjective(x.pkVals, b.cell.pkVals);
    case Delete(x) =>
      assert p[0][1] == q[0][1];
      assert p[3..] == RenderAll(x.pkVals) && q[3..] == RenderAll(b.del.pkVals);
      RenderAllInjective(x.pkVals, b.del.pkVals);
    case Insert(x) =>
      assert p[3] == q[3];
      FormatIntInjective(x.id, b.ins.id);
    case Schema(x) =>
      assert p[0][1] == q[0][1] && p[3] == q[3] && p[4] == q[4];
      KindWordInjective(x.kind, b.schema.kind);
  }

  lemma {:induction false} JoinNulPrefix(h: seq<string>, p: seq<string>)
    requires p != []
    ensures JoinNul(h + p) == (if h == [] then JoinNul(p) else JoinNul(h) + ("\0" + JoinNul(p)))
  {
    if h == [] {
      assert h + p == p;
    } else {
      assert (h + p)[1..] == h[1..] + p;
      JoinNulPrefix(h[1..], p);
      if |h| > 1 {
        var x, y, z := h[0], JoinNul(h[1..]), JoinNul(p);
        assert x + ("\0" + (y + ("\0" + z))) == (x + ("\0" + y)) + ("\0" + z);
      }
    }
  }

  lemma {:induction false} JoinNulSameCount(p: seq<string>, q: seq<string>)
    requires |p| == |q| > 0 && JoinNul(p) == JoinNul(q)
    requires forall i :: 0 <= i < |p| - 1 ==> NulFree(p[i]) && NulFree(q[i])
    ensures p == q
  {
    if |p| > 1 {
      NulSplits(p[0], JoinNul(p[1..]), q[0], JoinNul(q[1..]));
      JoinNulSameCount(p[1..], q[1..]);
      assert p == [p[0]] + p[1..] && q == [q[0]] + q[1..];
    }
  }

  /** Two deletes in one table, or two edits of one column of it. */
  predicate SamePlace(a: Change, b: Change) {
    match (a, b)
    case (Cell(x), Cell(y)) => x.database == y.database && x.table == y.table && x.column == y.column
    case (Delete(x), Delete(y)) => x.database == y.database && x.table == y.table
    case _ => false
  }

  function RowKey(c: Change): seq<Value>
    requires c.Cell? || c.Delete?
  {
    if c.Cell? then c.cell.pkVals else c.del.pkVals
  }

  function Place(c: Change): (h: seq<string>)
    requires c.Cell? || c.Delete?
    ensures h != [] && Parts(c) == h + RenderAll(RowKey(c))
  {
    if c.Cell? then ["cell", c.cell.database, c.cell.table, c.cell.column] else ["del", c.del.database, c.del.table]
  }

  /** Within one table, whose rows have keys of one length, only a NUL in front
      of the last key value can matter: names and the last value may hold one,
      and so may the value of a one-column key. */
  lemma OneTableKeys(a: Change, b: Change)
    requires SamePlace(a, b) && |RowKey(a)| == |RowKey(b)| > 0
    requires forall i :: 0 <= i < |RowKey(a)| - 1 ==> NulFreeValue(RowKey(a)[i]) && NulFreeValue(RowKey(b)[i])
    ensures Key(a) == Key(b) <==> RowKey(a) == RowKey(b)
  {
    hide JoinNul, Render, FormatInt, NulFree, NulFreeValue, Parts;
    var h, u, v := Place(a), RowKey(a), RowKey(b);
    var p, q := RenderAll(u), RenderAll(v);
    assert Place(b) == h;
    JoinNulPrefix(h, p);
    JoinNulPrefix(h, q);
    if Key(a) == Key(b) {
      assert (JoinNul(h) + ("\0" + JoinNul(p)))[|JoinNul(h)| + 1..] == JoinNul(p);
      assert (JoinNul(h) + ("\0" + JoinNul(q)))[|JoinNul(h)| + 1..] == JoinNul(q);
      forall i | 0 <= i < |p| - 1
        ensures NulFree(p[i]) && NulFree(q[i])
      {
        RenderNulFree(u[i]);
        RenderNulFree(v[i]);
      }
      JoinNulSameCount(p, q);
      RenderAllInjective(u, v);
    }
  }

  /** In front of the last value it can make two rows of one table one. */
  lemma NulCollides()
    ensures var a := Delete(RowDelete("", "t", ["x", "y"], [Str("a\0string:b"), Str("c")]));
            var b := Delete(RowDelete("", "t", ["x", "y"], [Str("a"), Str("b\0string:c")]));
            Key(a) == Key(b) && TargetOf(a) != TargetOf(b)
  {
    var u, v := [Str("a\0string:b"), Str("c")], [Str("a"), Str("b\0string:c")];
    assert u[0] != v[0] by { assert |u[0].s| != |v[0].s|; }
    TwoRendered(u[0], u[1]);
    TwoRendered(v[0], v[1]);
    assert Render(u[0]) + ("\0" + Render(u[1])) == Render(v[0]) + ("\0" + Render(v[1]));
    hide JoinNul, Render;
    var h: seq<string> := ["del", "", "t"];
    JoinNulPrefix(h, RenderAll(u));
    JoinNulPrefix(h, RenderAll(v));
  }

  lemma TwoRendered(u: Value, v: Value)
    ensures JoinNul(RenderAll([u, v])) == Render(u) + ("\0" + Render(v))
  {
    hide Render;
    assert RenderAll([u, v])[1..] == [Render(v)];
  }

  // ---------- the op list ----------

  /** The position of the first change with key k, or |ops|. */
  function PosOf(ops: seq<Change>, k: string): (i: nat)
    ensures i <= |ops|
    ensures i < |ops| ==> Key(ops[i]) == k
    ensures forall j :: 0 <= j < i ==> Key(ops[j]) != k
  {
    if ops == [] || Key(ops[0]) == k then 0 else 1 + PosOf(ops[1..], k)
  }

  /** Staging replaces the change with the same key where it stands, or appends. */
  function Staged(ops: seq<Change>, c: Change): seq<Change> {
    var i := PosOf(ops, Key(c));
    if i < |ops| then ops[i := c] else ops + [c]
  }

  function RemovedAt(ops: seq<Change>, i: nat): seq<Change>
    requires i < |ops|
  {
    ops[..i] + ops[i + 1..]
  }

  function Removed(ops: seq<Change>, k: string): seq<Change> {
    var i := PosOf(ops, k);
    if i < |ops| then RemovedAt(ops, i) else ops
  }

  /** A restaged cell keeps the value the database holds. */
  function KeepOld(ops: seq<Change>, c: CellChange): CellChange {
    var i := PosOf(ops, Key(Cell(c)));
    if i < |ops| && ops[i].Cell? then c.(oldValue := ops[i].cell.oldValue) else c
  }

  predicate IsCellOf(c: Change, database: string, table: string, pkVals: seq<Value>) {
    c.Cell? && c.cell.database == database && c.cell.table == table && c.cell.pkVals == pkVals
  }

  predicate IsDeleteOf(c: Change, database: string, table: string, pkVals: seq<Value>) {
    c.Delete? && c.del.database == database && c.del.table == table && c.del.pkVals == pkVals
  }

  /** The changes that are not cell edits of one row. */
  function WithoutCells(ops: seq<Change>, database: string, table: string, pkVals: seq<Value>): (r: seq<Change>)
    ensures forall i :: 0 <= i < |r| ==> !IsCellOf(r[i], database, table, pkVals)
  {
    if ops == [] then []
    else
      (if IsCellOf(ops[0], database, table, pkVals) then [] else [ops[0]]) + WithoutCells(ops[1..], database, table, pkVals)
  }

  /** The changes that neither edit nor delete one row. */
  function WithoutRow(ops: seq<Change>, database: string, table: string, pkVals: seq<Value>): (r: seq<Change>)
    ensures forall i :: 0 <= i < |r| ==>
              !IsCellOf(r[i], database, table, pkVals) && !IsDeleteOf(r[i], database, table, pkVals)
    ensures |r| <= |ops|
  {
    if ops == [] then []
    else
      (if IsCellOf(ops[0], database, table, pkVals) || IsDeleteOf(ops[0], database, table, pkVals) then [] else [ops[0]]) +
      WithoutRow(ops[1..], database, table, pkVals)
  }

  /** The index is the exact inverse of the op list. */
  ghost predicate Indexed(ops: seq<Change>, index: map<string, int>) {
    && (forall i :: 0 <= i < |ops| ==> Key(ops[i]) in index && index[Key(ops[i])] == i)
    && (forall k :: k in index ==> 0 <= index[k] < |ops| && Key(ops[index[k]]) == k)
  }

  ghost predicate DistinctKeys(ops: seq<Change>) {
    forall i, j :: 0 <= i < j < |ops| ==> Key(ops[i]) != Key(ops[j])
  }

  /** Every staged insert has an identity that was handed out. */
  ghost predicate InsertsBelow(ops: seq<Change>, nextID: int) {
    forall i :: 0 <= i < |ops| && ops[i].Insert? ==> 1 <= ops[i].ins.id <= nextID
  }

  lemma RemovedInserts(ops: seq<Change>, i: nat, nextID: int)
    requires i < |ops| && InsertsBelow(ops, nextID)
    ensures InsertsBelow(RemovedAt(ops, i), nextID)
  {
    var r := RemovedAt(ops, i);
    assert forall j :: 0 <= j < |r| ==> r[j] == ops[if j < i then j else j + 1];
  }

  /** One turn of a loop that runs from the last change to the first: what was
      at i is kept or dropped, what comes after it is done. */
  lemma TakeOne(was: seq<Change>, rest: seq<Change>, i: nat)
    requires i < |was|
    ensures var ops := was[..i + 1] + rest;
            && ops[i] == was[i]
            && RemovedAt(ops, i) == was[..i] + rest
            && ops == was[..i] + ([was[i]] + rest)
    ensures was[i..][0] == was[i] && was[i..][1..] == was[i + 1..]
  {
    var ops := was[..i + 1] + rest;
    assert ops[..i] == was[..i] && ops[i + 1..] == rest;
    assert was[..i + 1] == was[..i] + [was[i]];
  }

  lemma StagedInserts(ops: seq<Change>, c: Change, nextID: int)
    requires InsertsBelow(ops, nextID) || (c.Insert? && InsertsBelow(ops, nextID - 1))
    requires c.Insert? ==> 1 <= c.ins.id <= nextID
    ensures InsertsBelow(Staged(ops, c), nextID)
  {
    hide Key;
  }

  lemma IndexedIsDistinct(ops: seq<Change>, index: map<string, int>)
    requires Indexed(ops, index)
    ensures DistinctKeys(ops)
  {
    hide Key;
    forall i, j | 0 <= i < j < |ops|
      ensures Key(ops[i]) != Key(ops[j])
    {
      assert index[Key(ops[i])] == i && index[Key(ops[j])] == j;
    }
  }

  /** The index finds the one change with a key. */
  lemma IndexFinds(ops: seq<Change>, index: map<string, int>, k: string)
    requires Indexed(ops, index)
    ensures if k in index then PosOf(ops, k) == index[k] < |ops| else PosOf(ops, k) == |ops|
  {
    hide Key;
    var p := PosOf(ops, k);
    if k in index {
      IndexedIsDistinct(ops, index);
      assert p <= index[k];
    }
  }

  function KeySet(ops: seq<Change>): set<string> {
    set i | 0 <= i < |ops| :: Key(ops[i])
  }

  /** The index while removeAt repairs it: positions before j are right, the
      others are still one too high. */
  ghost predicate Shifting(ops: seq<Change>, index: map<string, int>, j: nat) {
    && index.Keys == KeySet(ops)
    && forall m :: 0 <= m < |ops| ==> Key(ops[m]) in index && index[Key(ops[m])] == if m < j then m else m + 1
  }

  lemma ShiftStart(ops: seq<Change>, index: map<string, int>, i: nat)
    requires Indexed(ops, index) && i < |ops|
    ensures DistinctKeys(RemovedAt(ops, i)) && Shifting(RemovedAt(ops, i), index - {Key(ops[i])}, i)
  {
    hide Key;
    IndexedIsDistinct(ops, index);
    var r, left := RemovedAt(ops, i), index - {Key(ops[i])};
    assert forall j :: 0 <= j < |r| ==> r[j] == ops[if j < i then j else j + 1];
    forall k | k in left
      ensures k in KeySet(r)
    {
      var p := index[k];
      assert ops[p] == r[if p < i then p else p - 1];
    }
  }

  lemma ShiftEnd(ops: seq<Change>, index: map<string, int>)
    requires Shifting(ops, index, |ops|)
    ensures Indexed(ops, index)
  {
    hide Key;
    forall k | k in index
      ensures 0 <= index[k] < |ops| && Key(ops[index[k]]) == k
    {
      assert k in KeySet(ops);
    }
  }

  lemma ShiftOne(ops: seq<Change>, index: map<string, int>, j: nat)
    requires j < |ops| && Shifting(ops, index, j) && DistinctKeys(ops)
    ensures Shifting(ops, index[Key(ops[j]) := j], j + 1)
  {
    hide Key, KeySet;
    assert Key(ops[j]) in index;
    assert index[Key(ops[j]) := j].Keys == index.Keys;
  }

  class Changeset {
    var ops: seq<Change>
    var index: map<string, int>
    var nextID: int

    ghost predicate Valid()
      reads this
    {
      && Indexed(ops, index)
      && nextID >= 0
      && InsertsBelow(ops, nextID)
    }

    constructor ()
      ensures Valid() && ops == [] && nextID == 0
    {
      ops, index, nextID := [], map[], 0;
    }

    /** The internal stage. */
    method StageChange(c: Change)
      requires Indexed(ops, index)
      modifies `ops, `index
      ensures Indexed(ops, index) && ops == Staged(old(ops), c)
    {
      hide Key;
      var k := Key(c);
      IndexFinds(ops, index, k);
      IndexedIsDistinct(ops, index);
      if k in index {
        ops := ops[index[k] := c];
        return;
      }
      index := index[k := |ops|];
      ops := ops + [c];
    }

    /** Drops one change and repairs the index. */
    method RemoveAt(i: nat)
      requires Indexed(ops, index) && i < |ops|
      modifies `ops, `index
      ensures Indexed(ops, index) && ops == RemovedAt(old(ops), i)
    {
      hide Key, Indexed, Shifting, DistinctKeys;
      ShiftStart(ops, index, i);
      index := index - {Key(ops[i])};
      ops := ops[..i] + ops[i + 1..];
      var j := i;
      while j < |ops|
        invariant i <= j <= |ops| && ops == RemovedAt(old(ops), i)
        invariant DistinctKeys(ops) && Shifting(ops, index, j)
      {
        ShiftOne(ops, index, j);
        index := index[Key(ops[j]) := j];
        j := j + 1;
      }
      ShiftEnd(ops, index);
    }

    method RemoveKey(k: string) returns (found: bool)
      requires Valid()
      modifies `ops, `index
      ensures Valid() && ops == Removed(old(ops), k)
      ensures found <==> PosOf(old(ops), k) < |old(ops)|
    {
      IndexFinds(ops, index, k);
      if k !in index {
        return false;
      }
      RemovedInserts(ops, index[k], nextID);
      RemoveAt(index[k]);
      return true;
    }

    /** Records a confirmed cell edit. */
    method Stage(c: CellChange)
      requires Valid()
      modifies `ops, `index
      ensures Valid() && ops == Staged(old(ops), Cell(KeepOld(old(ops), c)))
    {
      hide Key, Indexed;
      var d := c;
      var k := Key(Cell(c));
      IndexFinds(ops, index, k);
      if k in index {
        var i := index[k];
        if ops[i].Cell? {
          d := d.(oldValue := ops[i].cell.oldValue);
        }
      }
      StagedInserts(ops, Cell(d), nextID);
      StageChange(Cell(d));
    }

    /** Records a row delete, unless it is already staged, and drops the cell
        edits of the row. */
    method StageDelete(r: RowDelete) returns (isNew: bool)
      requires Valid()
      modifies `ops, `index
      ensures Valid()
      ensures isNew <==> PosOf(old(ops), Key(Delete(r))) == |old(ops)|
      ensures ops == if isNew then Staged(WithoutCells(old(ops), r.database, r.table, r.pkVals), Delete(r)) else old(ops)
    {
      hide Key, Indexed, Staged, InsertsBelow, RemovedAt;
      var k := Key(Delete(r));
      IndexFinds(ops, index, k);
      if k in index {
        return false;
      }
      ghost var was := ops;
      var i := |ops|;
      assert was[..i] + [] == was;
      while i > 0
        invariant 0 <= i <= |was| && Indexed(ops, index) && InsertsBelow(ops, nextID)
        invariant ops == was[..i] + WithoutCells(was[i..], r.database, r.table, r.pkVals)
      {
        i := i - 1;
        TakeOne(was, WithoutCells(was[i + 1..], r.database, r.table, r.pkVals), i);
        if ops[i].Cell? {
          var c := ops[i].cell;
          if c.database == r.database && c.table == r.table && c.pkVals == r.pkVals {
            RemovedInserts(ops, i, nextID);
            RemoveAt(i);
          }
        }
      }
      assert was[0..] == was;
      assert ops == WithoutCells(was, r.database, r.table, r.pkVals);
      StagedInserts(ops, Delete(r), nextID);
      StageChange(Delete(r));
      return true;
    }

    /** Records a row insert under an identity of its own. */
    method StageInsert(r: RowInsert) returns (stored: RowInsert)
      requires Valid()
      modifies this
      ensures Valid() && nextID == old(nextID) + 1
      ensures stored == r.(id := nextID) && ops == Staged(old(ops), Insert(stored))
    {
      hide Key, Indexed, Staged;
      nextID := nextID + 1;
      stored := r.(id := nextID);
      StagedInserts(ops, Insert(stored), nextID);
      StageChange(Insert(stored));
    }

    method Unstage(database: string, table: string, pkVals: seq<Value>, column: string) returns (found: bool)
      requires Valid()
      modifies `ops, `index
      ensures Valid()
      ensures var k := Key(Cell(CellChange(database, table, [], pkVals, column, Nil, Nil)));
              ops == Removed(old(ops), k) && (found <==> PosOf(old(ops), k) < |old(ops)|)
    {
      hide Key, Indexed;
      found := RemoveKey(Key(Cell(CellChange(database, table, [], pkVals, column, Nil, Nil))));
    }

    method UnstageDelete(database: string, table: string, pkVals: seq<Value>) returns (found: bool)
      requires Valid()
      modifies `ops, `index
      ensures Valid()
      ensures var k := Key(Delete(RowDelete(database, table, [], pkVals)));
              ops == Removed(old(ops), k) && (found <==> PosOf(old(ops), k) < |old(ops)|)
    {
      hide Key, Indexed;
      found := RemoveKey(Key(Delete(RowDelete(database, table, [], pkVals))));
    }

    method UnstageInsert(database: string, table: string, id: int) returns (found: bool)
      requires Valid()
      modifies `ops, `index
      ensures Valid()
      ensures var k := Key(Insert(RowInsert(id, database, table, [], [])));
              ops == Removed(old(ops), k) && (found <==> PosOf(old(ops), k) < |old(ops)|)
    {
      hide Key, Indexed;
      found := RemoveKey(Key(Insert(RowInsert(id, database, table, [], []))));
    }

    /** Drops the delete and the cell edits of one row. */
    method UnstageRow(database: string, table: string, pkVals: seq<Value>) returns (n: int)
      requires Valid()
      modifies `ops, `index
      ensures Valid() && ops == WithoutRow(old(ops), database, table, pkVals)
      ensures n == |old(ops)| - |ops|
    {
      hide Key, Indexed, InsertsBelow, RemovedAt;
      n := 0;
      ghost var was := ops;
      var i := |ops|;
      assert was[..i] + [] == was;
      while i > 0
        invariant 0 <= i <= |was| && Indexed(ops, index) && InsertsBelow(ops, nextID)
        invariant ops == was[..i] + WithoutRow(was[i..], database, table, pkVals)
        invariant n == |was| - |ops|
      {
        i := i - 1;
        TakeOne(was, WithoutRow(was[i + 1..], database, table, pkVals), i);
        var mine := match ops[i]
          case Cell(c) => c.database == database && c.table == table && c.pkVals == pkVals
          case Delete(d) => d.database == database && d.table == table && d.pkVals == pkVals
          case _ => false;
        if mine {
          RemovedInserts(ops, i, nextID);
          RemoveAt(i);
          n := n + 1;
        }
      }
      assert was[0..] == was;
    }

    method StageSchema(c: SchemaChange)
      requires Valid()
      modifies `ops, `index
      ensures Valid() && ops == Staged(old(ops), Schema(c))
    {
      hide Key, Indexed, Staged;
      StagedInserts(ops, Schema(c), nextID);
      StageChange(Schema(c));
    }

    method UnstageSchema(c: SchemaChange) returns (found: bool)
      requires Valid()
      modifies `ops, `index
      ensures Valid() && ops == Removed(old(ops), Key(Schema(c)))
      ensures found <==> PosOf(old(ops), Key(Schema(c))) < |old(ops)|
    {
      hide Key, Indexed;
      found := RemoveKey(Key(Schema(c)));
    }

    /** Discards every change; the insert counter goes on. */
    method Clear()
      requires Valid()
      modifies `ops, `index
      ensures Valid() && ops == []
    {
      ops, index := [], map[];
    }

    /** Any one command, as the state machine below describes it. */
    method Do(cmd: Command)
      requires Valid()
      modifies this
      ensures Valid() && State(ops, nextID) == Step(State(old(ops), old(nextID)), cmd)
    {
      hide Key, Indexed, Staged, Removed, WithoutCells, WithoutRow, InsertsBelow;
      var b, n, r;
      match cmd
      case DoStage(c) => Stage(c);
      case DoDelete(d) => b := StageDelete(d);
      case DoInsert(i) => r := StageInsert(i);
      case DoUnstage(db, t, pk, col) => b := Unstage(db, t, pk, col);
      case DoUnstageDelete(db, t, pk) => b := UnstageDelete(db, t, pk);
      case DoUnstageInsert(db, t, id) => b := UnstageInsert(db, t, id);
      case DoUnstageRow(db, t, pk) => n := UnstageRow(db, t, pk);
      case DoSchema(c) => StageSchema(c);
      case DoUnstageSchema(c) => b := UnstageSchema(c);
      case DoClear => Clear();
    }
  }

  // ---------- runs ----------

  datatype Command =
    | DoStage(c: CellChange)
    | DoDelete(d: RowDelete)
    | DoInsert(i: RowInsert)
    | DoUnstage(database: string, table: string, pkVals: seq<Value>, column: string)
    | DoUnstageDelete(database: string, table: string, pkVals: seq<Value>)
    | DoUnstageInsert(database: string, table: string, id: int)
    | DoUnstageRow(database: string, table: string, pkVals: seq<Value>)
    | DoSchema(s: SchemaChange)
    | DoUnstageSchema(s: SchemaChange)
    | DoClear

  datatype State = State(ops: seq<Change>, nextID: int)

  function StepOps(ops: seq<Change>, nextID: int, cmd: Command): seq<Change> {
    match cmd
    case DoStage(c) => Staged(ops, Cell(KeepOld(ops, c)))
    case DoDelete(d) =>
      if PosOf(ops, Key(Delete(d))) < |ops| then ops
      else Staged(WithoutCells(ops, d.database, d.table, d.pkVals), Delete(d))
    case DoInsert(i) => Staged(ops, Insert(i.(id := nextID + 1)))
    case DoUnstage(db, t, pk, col) => Removed(ops, Key(Cell(CellChange(db, t, [], pk, col, Nil, Nil))))
    case DoUnstageDelete(db, t, pk) => Removed(ops, Key(Delete(RowDelete(db, t, [], pk))))
    case DoUnstageInsert(db, t, id) => Removed(ops, Key(Insert(RowInsert(id, db, t, [], []))))
    case DoUnstageRow(db, t, pk) => WithoutRow(ops, db, t, pk)
    case DoSchema(s) => Staged(ops, Schema(s))
    case DoUnstageSchema(s) => Removed(ops, Key(Schema(s)))
    case DoClear => []
  }

  function Step(st: State, cmd: Command): State {
    State(StepOps(st.ops, st.nextID, cmd), if cmd.DoInsert? then st.nextID + 1 else st.nextID)
  }

  function Run(cmds: seq<Command>): State {
    if cmds == [] then State([], 0) else Step(Run(cmds[..|cmds| - 1]), cmds[|cmds| - 1])
  }

  /** The identities a run hands out, in order. */
  function Issued(cmds: seq<Command>): seq<int> {
    if cmds == [] then []
    else
      var n := |cmds| - 1;
      Issued(cmds[..n]) + if cmds[n].DoInsert? then [Run(cmds[..n]).nextID + 1] else []
  }

  lemma StagedDistinct(ops: seq<Change>, c: Change)
    requires DistinctKeys(ops)
    ensures DistinctKeys(Staged(ops, c))
  {
    hide Key;
  }

  lemma RemovedDistinct(ops: seq<Change>, k: string)
    requires DistinctKeys(ops)
    ensures DistinctKeys(Removed(ops, k))
  {
    hide Key;
    var i := PosOf(ops, k);
    if i < |ops| {
      var r := RemovedAt(ops, i);
      assert forall j :: 0 <= j < |r| ==> r[j] == ops[if j < i then j else j + 1];
    }
  }

  lemma {:induction false} WithoutCellsIn(ops: seq<Change>, database: string, table: string, pkVals: seq<Value>)
    requires DistinctKeys(ops)
    ensures var r := WithoutCells(ops, database, table, pkVals);
            DistinctKeys(r) && forall c :: c in r <==> c in ops && !IsCellOf(c, database, table, pkVals)
  {
    hide Key, IsCellOf;
    if ops != [] {
      assert forall i :: 0 <= i < |ops| - 1 ==> ops[1..][i] == ops[i + 1];
      WithoutCellsIn(ops[1..], database, table, pkVals);
      var rest := WithoutCells(ops[1..], database, table, pkVals);
      FrontDistinct(ops, rest);
      assert ops == [ops[0]] + ops[1..];
    }
  }

  lemma {:induction false} WithoutRowIn(ops: seq<Change>, database: string, table: string, pkVals: seq<Value>)
    requires DistinctKeys(ops)
    ensures var r := WithoutRow(ops, database, table, pkVals);
            && DistinctKeys(r)
            && forall c :: c in r <==>
                 c in ops && !IsCellOf(c, database, table, pkVals) && !IsDeleteOf(c, database, table, pkVals)
  {
    hide Key, IsCellOf, IsDeleteOf;
    if ops != [] {
      assert forall i :: 0 <= i < |ops| - 1 ==> ops[1..][i] == ops[i + 1];
      WithoutRowIn(ops[1..], database, table, pkVals);
      var rest := WithoutRow(ops[1..], database, table, pkVals);
      FrontDistinct(ops, rest);
      assert ops == [ops[0]] + ops[1..];
    }
  }

  lemma FrontDistinct(ops: seq<Change>, rest: seq<Change>)
    requires DistinctKeys(ops) && ops != [] && DistinctKeys(rest)
    requires forall c :: c in rest ==> c in ops[1..]
    ensures DistinctKeys([ops[0]] + rest)
  {
    hide Key;
    forall j | 0 <= j < |rest|
      ensures Key(rest[j]) != Key(ops[0])
    {
      assert rest[j] in ops[1..];
      var p :| 0 <= p < |ops[1..]| && ops[1..][p] == rest[j];
      assert ops[p + 1] == rest[j];
    }
    var all := [ops[0]] + rest;
    assert forall j :: 1 <= j < |all| ==> all[j] == rest[j - 1];
  }

  /** Over every run the staged changes have distinct keys and every staged
      insert carries an identity that was handed out. */
  lemma {:induction false} RunKeeps(cmds: seq<Command>)
    ensures var st := Run(cmds); DistinctKeys(st.ops) && InsertsBelow(st.ops, st.nextID) && st.nextID >= 0
  {
    hide Key, Staged, Removed, WithoutCells, WithoutRow, DistinctKeys, InsertsBelow;
    if cmds == [] {
      RunStarts();
    } else {
      var n := |cmds| - 1;
      RunKeeps(cmds[..n]);
      StepKeeps(Run(cmds[..n]), cmds[n]);
    }
  }

  lemma RunStarts()
    ensures DistinctKeys([]) && InsertsBelow([], 0)
  {
  }

  lemma StepKeeps(st: State, cmd: Command)
    requires DistinctKeys(st.ops) && InsertsBelow(st.ops, st.nextID) && st.nextID >= 0
    ensures var to := Step(st, cmd); DistinctKeys(to.ops) && InsertsBelow(to.ops, to.nextID)
  {
    hide Key, Staged, Removed, WithoutCells, WithoutRow, DistinctKeys;
    var ops := st.ops;
    match cmd
    case DoStage(c) =>
      StagedDistinct(ops, Cell(KeepOld(ops, c)));
      StagedInserts(ops, Cell(KeepOld(ops, c)), st.nextID);
    case DoDelete(d) =>
      var less := WithoutCells(ops, d.database, d.table, d.pkVals);
      WithoutCellsIn(ops, d.database, d.table, d.pkVals);
      assert forall i :: 0 <= i < |less| ==> less[i] in ops;
      StagedDistinct(less, Delete(d));
      StagedInserts(less, Delete(d), st.nextID);
    case DoInsert(i) =>
      StagedDistinct(ops, Insert(i.(id := st.nextID + 1)));
      StagedInserts(ops, Insert(i.(id := st.nextID + 1)), st.nextID + 1);
    case DoUnstage(db, t, pk, col) => RemovedKeeps(ops, Key(Cell(CellChange(db, t, [], pk, col, Nil, Nil))), st.nextID);
    case DoUnstageDelete(db, t, pk) => RemovedKeeps(ops, Key(Delete(RowDelete(db, t, [], pk))), st.nextID);
    case DoUnstageInsert(db, t, id) => RemovedKeeps(ops, Key(Insert(RowInsert(id, db, t, [], []))), st.nextID);
    case DoUnstageRow(db, t, pk) =>
      var less := WithoutRow(ops, db, t, pk);
      WithoutRowIn(ops, db, t, pk);
      assert forall i :: 0 <= i < |less| ==> less[i] in ops;
    case DoSchema(s) =>
      StagedDistinct(ops, Schema(s));
      StagedInserts(ops, Schema(s), st.nextID);
    case DoUnstageSchema(s) => RemovedKeeps(ops, Key(Schema(s)), st.nextID);
    case DoClear => RunStarts();
  }

  lemma RemovedKeeps(ops: seq<Change>, k: string, nextID: int)
    requires DistinctKeys(ops) && InsertsBelow(ops, nextID)
    ensures DistinctKeys(Removed(ops, k)) && InsertsBelow(Removed(ops, k), nextID)
  {
    hide Key, DistinctKeys, InsertsBelow;
    RemovedDistinct(ops, k);
    var i := PosOf(ops, k);
    if i < |ops| { RemovedInserts(ops, i, nextID); }
  }

  /** No identity is handed out twice in a run, whatever is unstaged or cleared
      in between: they come out as 1, 2, 3, ... */
  lemma {:induction false} IssuedCount(cmds: seq<Command>)
    ensures |Issued(cmds)| == Run(cmds).nextID
    ensures forall i :: 0 <= i < |Issued(cmds)| ==> Issued(cmds)[i] == i + 1
  {
    hide StepOps;
    if cmds != [] {
      IssuedCount(cmds[..|cmds| - 1]);
    }
  }

  /** Restaging a cell keeps its place, the value the database holds, and every
      other change. */
  lemma RestageKeeps(ops: seq<Change>, c: CellChange)
    requires DistinctKeys(ops) && PosOf(ops, Key(Cell(c))) < |ops|
    requires NulFreeChange(Cell(c)) && forall i :: 0 <= i < |ops| ==> NulFreeChange(ops[i])
    ensures var p, to := PosOf(ops, Key(Cell(c))), Staged(ops, Cell(KeepOld(ops, c)));
            && ops[p].Cell? && to == ops[p := Cell(c.(oldValue := ops[p].cell.oldValue))]
            && TargetOf(ops[p]) == TargetOf(Cell(c))
  {
    hide Key;
    var p := PosOf(ops, Key(Cell(c)));
    KeyIsTarget(ops[p], Cell(c));
    var d := KeepOld(ops, c);
    KeyIsTarget(Cell(d), Cell(c));
  }

  /** What is left stands in the order it stood in. */
  lemma {:induction false} WithoutCellsOrder(ops: seq<Change>, database: string, table: string, pkVals: seq<Value>)
    requires DistinctKeys(ops)
    ensures var r := WithoutCells(ops, database, table, pkVals);
            forall i, j :: 0 <= i < j < |r| ==> PosOf(ops, Key(r[i])) < PosOf(ops, Key(r[j]))
  {
    hide Key, IsCellOf;
    if ops != [] {
      var tail := ops[1..];
      assert forall i :: 0 <= i < |tail| ==> tail[i] == ops[i + 1];
      WithoutCellsOrder(tail, database, table, pkVals);
      WithoutCellsIn(tail, database, table, pkVals);
      var rest := WithoutCells(tail, database, table, pkVals);
      forall i | 0 <= i < |rest|
        ensures PosOf(ops, Key(rest[i])) == 1 + PosOf(tail, Key(rest[i]))
      {
        assert rest[i] in tail;
      }
    }
  }

  /** Staging a delete takes away the staged edits of its row, and nothing else,
      and appends the delete: every other change stays, in its order. */
  lemma DeleteClearsCells(st: State, d: RowDelete)
    requires DistinctKeys(st.ops) && PosOf(st.ops, Key(Delete(d))) == |st.ops|
    ensures var to := Step(st, DoDelete(d)).ops;
            && |to| > 0 && to[|to| - 1] == Delete(d)
            && (forall c :: c in to[..|to| - 1] <==> c in st.ops && !IsCellOf(c, d.database, d.table, d.pkVals))
            && forall i, j :: 0 <= i < j < |to| - 1 ==> PosOf(st.ops, Key(to[i])) < PosOf(st.ops, Key(to[j]))
  {
    hide Key, WithoutCells, IsCellOf;
    var less := WithoutCells(st.ops, d.database, d.table, d.pkVals);
    WithoutCellsIn(st.ops, d.database, d.table, d.pkVals);
    WithoutCellsOrder(st.ops, d.database, d.table, d.pkVals);
    assert forall c :: c in st.ops ==> Key(c) != Key(Delete(d));
    assert forall i :: 0 <= i < |less| ==> less[i] in st.ops;
    var to := Step(st, DoDelete(d)).ops;
    assert to == less + [Delete(d)];
    assert to[..|to| - 1] == less;
  }
}
