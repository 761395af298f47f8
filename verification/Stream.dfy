/** Streamed export (internal/export/export.go) and column projection
    (internal/export/project.go): reading a table page by page, or a query once,
    writes the same rows; a projected source writes the projection of them.
    Writers, pages and the context may fail at any point. */
module Streams {
  import opened Wrappers

  datatype Cell = Null | Value(text: string)

  type Row = seq<Cell>

  datatype Table = Table(cols: seq<string>, rows: seq<Row>)

  // ---------- projection ----------

  datatype Column = Column(name: string, index: int)

  /** None keeps every column as it is. */
  type Projection = Option<seq<Column>>

  /** The first position of a name, or the length when there is none. */
  function FirstOf(cols: seq<string>, name: string): (i: nat)
    ensures i <= |cols| && (i < |cols| ==> cols[i] == name) && name !in cols[..i]
    ensures i < |cols| <==> name in cols
  {
    if cols == [] || cols[0] == name then 0
    else
      assert cols == [cols[0]] + cols[1..];
      var i := 1 + FirstOf(cols[1..], name);
      assert cols[..i] == [cols[0]] + cols[1..][..i - 1];
      i
  }

  /** Column j of a result is the kept column c: the one at its position while
      the name still matches there, else the first of that name. */
  predicate Stands(c: Column, cols: seq<string>, j: nat) {
    && j < |cols| && cols[j] == c.name
    && if 0 <= c.index < |cols| && cols[c.index] == c.name then j == c.index
       else forall k :: 0 <= k < j ==> cols[k] != c.name
  }

  /** Where a kept column is: at its position while the name still matches, else
      at the first column of that name, else nowhere. */
  function Located(c: Column, cols: seq<string>): (r: seq<nat>)
    ensures forall i :: 0 <= i < |r| ==> r[i] < |cols| && cols[r[i]] == c.name
    ensures |r| == if c.name in cols then 1 else 0
    ensures forall i :: 0 <= i < |r| ==> Stands(c, cols, r[i])
  {
    if 0 <= c.index < |cols| && cols[c.index] == c.name then [c.index]
    else if FirstOf(cols, c.name) < |cols| then [FirstOf(cols, c.name)]
    else []
  }

  function Resolved(p: seq<Column>, cols: seq<string>): seq<nat> {
    if p == [] then [] else Resolved(p[..|p| - 1], cols) + Located(p[|p| - 1], cols)
  }

  function Picked<T>(src: seq<T>, idx: seq<nat>, zero: T): (r: seq<T>)
    ensures |r| == |idx|
  {
    seq(|idx|, i requires 0 <= i < |idx| => if idx[i] < |src| then src[idx[i]] else zero)
  }

  /** The columns of p that a result still has, in the order of p. */
  function StillThere(p: seq<Column>, cols: seq<string>): seq<Column> {
    if p == [] then []
    else StillThere(p[..|p| - 1], cols) + if p[|p| - 1].name in cols then [p[|p| - 1]] else []
  }

  /** Resolving drops what the result no longer has and finds everything else,
      in order. */
  lemma {:induction false} ResolvedStands(p: seq<Column>, cols: seq<string>)
    ensures var idx, kept := Resolved(p, cols), StillThere(p, cols);
            |idx| == |kept| && forall i :: 0 <= i < |idx| ==> Stands(kept[i], cols, idx[i])
  {
    hide Stands;
    if p != [] {
      ResolvedStands(p[..|p| - 1], cols);
    }
  }

  lemma OneStands(c: Column, cols: seq<string>, i: nat, j: nat)
    requires Stands(c, cols, i) && Stands(c, cols, j)
    ensures i == j
  {
  }

  function Cut(rows: seq<Row>, idx: seq<nat>): (r: seq<Row>)
    ensures |r| == |rows|
  {
    seq(|rows|, i requires 0 <= i < |rows| => Picked(rows[i], idx, Null))
  }

  function Projected(p: Projection, t: Table): (r: Table)
    ensures |r.rows| == |t.rows|
  {
    match p
    case None => t
    case Some(cs) =>
      var idx := Resolved(cs, t.cols);
      Table(Picked(t.cols, idx, ""), Cut(t.rows, idx))
  }

  /** A projected table has exactly the kept columns that are still there, in
      the order of the projection and under their names, and every row holds its
      own cells of those columns. */
  lemma ProjectedCells(p: seq<Column>, t: Table)
    ensures var out, kept := Projected(Some(p), t), StillThere(p, t.cols);
            && |out.cols| == |kept| && |out.rows| == |t.rows|
            && (forall i :: 0 <= i < |kept| ==> out.cols[i] == kept[i].name)
            && forall r, i, j: nat :: 0 <= r < |t.rows| && 0 <= i < |kept| && Stands(kept[i], t.cols, j) ==>
                 |out.rows[r]| == |kept| && out.rows[r][i] == if j < |t.rows[r]| then t.rows[r][j] else Null
  {
    hide Resolved, StillThere;
    ResolvedStands(p, t.cols);
    var idx, kept := Resolved(p, t.cols), StillThere(p, t.cols);
    forall i, j: nat | 0 <= i < |kept| && Stands(kept[i], t.cols, j)
      ensures idx[i] == j
    {
      OneStands(kept[i], t.cols, idx[i], j);
    }
  }

  method Resolve(p: seq<Column>, cols: seq<string>) returns (idx: seq<nat>)
    ensures idx == Resolved(p, cols)
  {
    idx := [];
    for k := 0 to |p|
      invariant idx == Resolved(p[..k], cols)
    {
      var c := p[k];
      assert p[..k + 1][..k] == p[..k];
      ghost var before := idx;
      if 0 <= c.index < |cols| && cols[c.index] == c.name {
        idx := idx + [c.index];
        continue;
      }
      var found := false;
      for i := 0 to |cols|
        invariant !found && idx == before && c.name !in cols[..i]
      {
        if cols[i] == c.name {
          FirstIs(cols, c.name, i);
          idx := idx + [i];
          found := true;
          break;
        }
        assert cols[..i + 1] == cols[..i] + [cols[i]];
      }
      if !found {
        assert cols[..|cols|] == cols;
        assert before + [] == before;
      }
    }
    assert p[..|p|] == p;
  }

  lemma {:induction false} FirstIs(cols: seq<string>, name: string, i: nat)
    requires i < |cols| && cols[i] == name && name !in cols[..i]
    ensures FirstOf(cols, name) == i
  {
    if i > 0 {
      assert cols[..i] == [cols[0]] + cols[1..][..i - 1];
      FirstIs(cols[1..], name, i - 1);
    }
  }

  // ---------- pages ----------

  function Min(a: int, b: int): int { if a < b then a else b }

  /** What a page of `limit` rows from `offset` on holds. */
  function PageOf(t: Table, limit: nat, offset: nat): Table
    requires offset <= |t.rows|
  {
    Table(t.cols, t.rows[offset..Min(offset + limit, |t.rows|)])
  }

  /** Projecting a page is a page of the projection. */
  lemma ProjectedPage(p: Projection, t: Table, limit: nat, offset: nat)
    requires offset <= |t.rows|
    ensures Projected(p, PageOf(t, limit, offset)) == PageOf(Projected(p, t), limit, offset)
  {
  }

  /** Asking the server for one page. */
  method Page(t: Table, limit: nat, offset: nat) returns (ok: bool, rs: Table)
    requires offset <= |t.rows|
    ensures ok ==> rs == PageOf(t, limit, offset)
  {
    ok, rs := *, PageOf(t, limit, offset);
  }

  /** Projection.Pager. */
  method PageThrough(p: Projection, t: Table, limit: nat, offset: nat) returns (ok: bool, rs: Table)
    requires offset <= |t.rows|
    ensures ok ==> rs == PageOf(Projected(p, t), limit, offset)
  {
    ok, rs := Page(t, limit, offset);
    if !ok || p == None {
      return;
    }
    ghost var page := rs;
    var idx := Resolve(p.value, rs.cols);
    var rows: seq<Row> := [];
    for i := 0 to |rs.rows|
      invariant rows == Cut(rs.rows, idx)[..i]
    {
      rows := rows + [Picked(rs.rows[i], idx, Null)];
    }
    rs := Table(Picked(rs.cols, idx, ""), rows);
    ProjectedPage(p, t, limit, offset);
    assert rs == Projected(p, page);
  }

  // ---------- the writer ----------

  /** What a writer is asked to do. A query without rows begins without columns. */
  datatype Event = Begun(cols: Option<seq<string>>) | Wrote(row: Row) | Ended

  function Wrotes(rows: seq<Row>): (r: seq<Event>)
    ensures |r| == |rows|
  {
    seq(|rows|, i requires 0 <= i < |rows| => Wrote(rows[i]))
  }

  lemma WrotesSnoc(rows: seq<Row>, n: nat)
    requires n < |rows|
    ensures Wrotes(rows[..n + 1]) == Wrotes(rows[..n]) + [Wrote(rows[n])]
  {
  }

  class Writer {
    var log: seq<Event>

    constructor ()
      ensures log == []
    {
      log := [];
    }

    method Begin(cols: Option<seq<string>>) returns (ok: bool)
      modifies this
      ensures log == old(log) + if ok then [Begun(cols)] else []
    {
      ok := *;
      log := log + if ok then [Begun(cols)] else [];
    }

    method Row(row: Row) returns (ok: bool)
      modifies this
      ensures log == old(log) + if ok then [Wrote(row)] else []
    {
      ok := *;
      log := log + if ok then [Wrote(row)] else [];
    }

    method End() returns (ok: bool)
      modifies this
      ensures log == old(log) + if ok then [Ended] else []
    {
      ok := *;
      log := log + if ok then [Ended] else [];
    }
  }

  datatype Options = Options(pageSize: int, maxRows: int, progressEvery: int)

  function Every(o: Options): nat { if o.progressEvery <= 0 then 5000 else o.progressEvery }

  /** How many rows an export of n rows writes. */
  function Exported(n: nat, o: Options): nat { if o.maxRows > 0 then Min(n, o.maxRows) else n }

  /** A complete export: begun once, the first rows in order, ended once. */
  function Output(cols: Option<seq<string>>, rows: seq<Row>): seq<Event> {
    [Begun(cols)] + Wrotes(rows) + [Ended]
  }

  /** An export that broke off after n rows: no row is out of place, nothing is
      begun twice, and it is not ended. */
  predicate BrokeOff(log: seq<Event>, cols: Option<seq<string>>, rows: seq<Row>, n: nat) {
    n <= |rows| && ((n == 0 && log == []) || log == [Begun(cols)] + Wrotes(rows[..n]))
  }

  function Last(reports: seq<nat>): nat { if reports == [] then 0 else reports[|reports| - 1] }

  /** Progress is reported at most once per `every` rows. */
  predicate Spaced(reports: seq<nat>, every: nat) {
    forall i :: 0 <= i < |reports| ==> reports[i] >= Last(reports[..i]) + every
  }

  /** ... and once more at the end. */
  predicate Reported(reports: seq<nat>, rows: nat, every: nat) {
    && Last(reports) == rows
    && (reports != [] ==> Spaced(reports[..|reports| - 1], every) && Last(reports[..|reports| - 1]) < rows)
  }

  lemma SpacedSnoc(reports: seq<nat>, rows: nat, every: nat)
    requires Spaced(reports, every) && rows >= Last(reports) + every
    ensures Spaced(reports + [rows], every) && Last(reports + [rows]) == rows
  {
    var all := reports + [rows];
    forall i | 0 <= i < |all|
      ensures all[i] >= Last(all[..i]) + every
    {
      assert i <= |reports| && all[..i] == reports[..i];
      if i == |reports| { assert reports[..i] == reports; }
    }
  }

  lemma SpacedEnds(reports: seq<nat>, every: nat)
    requires Spaced(reports, every) && every > 0
    ensures Reported(reports, Last(reports), every)
    ensures forall rows: nat :: rows > Last(reports) ==> Reported(reports + [rows], rows, every)
  {
    if reports != [] {
      var n := |reports| - 1;
      assert forall i :: 0 <= i < n ==> reports[..n][..i] == reports[..i];
      assert reports[n] >= Last(reports[..n]) + every;
    }
    forall rows: nat | rows > Last(reports)
      ensures Reported(reports + [rows], rows, every)
    {
      assert (reports + [rows])[..|reports|] == reports;
    }
  }

  /** Stream: every page is read and written, until one comes back short or the
      cap is reached. */
  method Stream(w: Writer, p: Projection, t: Table, o: Options)
      returns (rows: nat, truncated: bool, reports: seq<nat>, ok: bool)
    modifies w
    ensures var src := Projected(p, t);
            var n := Exported(|t.rows|, o);
            if ok then
              && rows == n && w.log == old(w.log) + Output(Some(src.cols), src.rows[..n])
              && (truncated <==> o.maxRows > 0 && |t.rows| >= o.maxRows)
              && Reported(reports, rows, Every(o))
            else
              rows <= n && old(w.log) <= w.log && BrokeOff(w.log[|old(w.log)|..], Some(src.cols), src.rows, rows)
  {
    hide Projected, PageOf, Spaced, Reported, Wrotes, BrokeOff;
    var pageSize := if o.pageSize <= 0 then 1000 else o.pageSize;
    var every := Every(o);
    ghost var src, was := Projected(p, t), w.log;
    var offset: nat, reportedAt: nat, begun := 0, 0, false;
    rows, truncated, reports, ok := 0, false, [], true;
    StartReports(every);
    while true
      invariant ok && !truncated && offset == rows <= |src.rows|
      invariant o.maxRows > 0 ==> rows < o.maxRows
      invariant w.log == was + if begun then [Begun(Some(src.cols))] + Wrotes(src.rows[..rows]) else []
      invariant !begun ==> rows == 0
      invariant Spaced(reports, every) && reportedAt == Last(reports) <= rows
      decreases |src.rows| - offset
    {
      var cancelled := *;
      if cancelled {
        BrokenOff(w.log, was, Some(src.cols), src.rows, rows, begun);
        ok := false;
        return;
      }
      var limit := pageSize;
      if o.maxRows > 0 && limit > o.maxRows - rows {
        limit := o.maxRows - rows;
      }
      var got, rs := PageThrough(p, t, limit, offset);
      if !got {
        BrokenOff(w.log, was, Some(src.cols), src.rows, rows, begun);
        ok := false;
        return;
      }
      PageFacts(src, limit, offset);
      if !begun {
        begun := w.Begin(Some(rs.cols));
        NothingWrote(src.rows);
        if !begun {
          BrokenOff(w.log, was, Some(src.cols), src.rows, 0, false);
          ok := false;
          return;
        }
      }
      var all;
      rows, all := WritePage(w, rs.rows, rows, src, was);
      if !all {
        BrokenOff(w.log, was, Some(src.cols), src.rows, rows, true);
        ok := false;
        return;
      }
      offset := offset + |rs.rows|;
      if rows - reportedAt >= every {
        SpacedSnoc(reports, rows, every);
        reportedAt, reports := rows, reports + [rows];
      }
      if |rs.rows| < limit {
        break;
      }
      if o.maxRows > 0 && rows >= o.maxRows {
        truncated := true;
        break;
      }
    }
    SpacedEnds(reports, every);
    if rows != reportedAt {
      reports := reports + [rows];
    }
    ok := w.End();
    if !ok {
      BrokenOff(w.log, was, Some(src.cols), src.rows, rows, true);
    }
  }

  /** The rows of one page, until the context or the writer gives up. */
  method WritePage(w: Writer, page: seq<Row>, offset: nat, ghost src: Table, ghost was: seq<Event>)
      returns (rows: nat, all: bool)
    requires offset + |page| <= |src.rows| && forall i :: 0 <= i < |page| ==> page[i] == src.rows[offset + i]
    requires w.log == was + ([Begun(Some(src.cols))] + Wrotes(src.rows[..offset]))
    modifies w
    ensures offset <= rows <= offset + |page| && (all ==> rows == offset + |page|)
    ensures w.log == was + ([Begun(Some(src.cols))] + Wrotes(src.rows[..rows]))
  {
    hide Wrotes;
    rows, all := offset, true;
    for i := 0 to |page|
      invariant rows == offset + i && w.log == was + ([Begun(Some(src.cols))] + Wrotes(src.rows[..rows]))
    {
      var cancelled := *;
      if cancelled {
        return rows, false;
      }
      var wrote := w.Row(page[i]);
      if !wrote {
        return rows, false;
      }
      WrotesSnoc(src.rows, rows);
      rows := rows + 1;
    }
  }

  lemma StartReports(every: nat)
    ensures Spaced([], every)
  {
  }

  lemma NothingWrote(rows: seq<Row>)
    ensures Wrotes(rows[..0]) == []
  {
  }

  lemma PageFacts(t: Table, limit: nat, offset: nat)
    requires offset <= |t.rows|
    ensures var rs := PageOf(t, limit, offset);
            && rs.cols == t.cols && |rs.rows| == Min(limit, |t.rows| - offset)
            && forall i :: 0 <= i < |rs.rows| ==> rs.rows[i] == t.rows[offset + i]
  {
  }

  lemma BrokenOff(log: seq<Event>, was: seq<Event>, cols: Option<seq<string>>, rows: seq<Row>, n: nat, begun: bool)
    requires n <= |rows| && (!begun ==> n == 0)
    requires log == was + if begun then [Begun(cols)] + Wrotes(rows[..n]) else []
    ensures was <= log && BrokeOff(log[|was|..], cols, rows, n)
  {
    hide Wrotes;
  }

  // ---------- queries ----------

  /** What a callback tells the runner: go on, stop reading, or fail. */
  datatype Call = Go | Enough | Failed

  /** The variables StreamQuery's callback works on. */
  class Feed {
    const w: Writer
    const o: Options
    ghost const was: seq<Event>
    var rows: nat
    var begun: bool
    var truncated: bool
    var reportedAt: nat
    var reports: seq<nat>

    constructor (w: Writer, o: Options)
      ensures this.w == w && this.o == o && was == w.log && fresh(this)
      ensures rows == 0 && !begun && !truncated && reports == [] && reportedAt == 0
    {
      this.w, this.o, this.was := w, o, w.log;
      rows, begun, truncated, reportedAt, reports := 0, false, false, 0, [];
    }

    /** After n rows of src were handed over and written. */
    ghost predicate Fed(src: Table, n: nat)
      reads this, w
    {
      && rows == n <= |src.rows| && (begun <==> n > 0)
      && w.log == was + (if begun then [Begun(Some(src.cols))] + Wrotes(src.rows[..n]) else [])
      && Spaced(reports, Every(o)) && reportedAt == Last(reports) <= rows
    }

    /** The callback. */
    method OnRow(ghost src: Table, cols: seq<string>, row: Row) returns (r: Call)
      requires Fed(src, rows) && !truncated && rows < |src.rows|
      requires cols == src.cols && row == src.rows[rows]
      modifies this, w
      ensures r == Go ==> Fed(src, old(rows) + 1) && !truncated && (o.maxRows > 0 ==> old(rows) < o.maxRows)
      ensures r != Go ==> rows == old(rows) && BrokeOff(Written(), Some(src.cols), src.rows, rows) && was <= w.log
      ensures r == Enough ==> truncated && o.maxRows > 0 && old(rows) >= o.maxRows && reports == old(reports) &&
                              reportedAt == old(reportedAt) && begun &&
                              w.log == was + ([Begun(Some(src.cols))] + Wrotes(src.rows[..rows]))
    {
      hide Spaced, Wrotes;
      var cancelled := *;
      if cancelled {
        BrokenOff(w.log, was, Some(src.cols), src.rows, rows, begun);
        return Failed;
      }
      NothingWrote(src.rows);
      if !begun {
        begun := w.Begin(Some(cols));
        if !begun {
          BrokenOff(w.log, was, Some(src.cols), src.rows, 0, false);
          return Failed;
        }
      }
      if o.maxRows > 0 && rows >= o.maxRows {
        truncated := true;
        BrokenOff(w.log, was, Some(src.cols), src.rows, rows, true);
        return Enough;
      }
      var wrote := w.Row(row);
      if !wrote {
        BrokenOff(w.log, was, Some(src.cols), src.rows, rows, true);
        return Failed;
      }
      WrotesSnoc(src.rows, rows);
      rows := rows + 1;
      if rows - reportedAt >= Every(o) {
        SpacedSnoc(reports, rows, Every(o));
        reportedAt, reports := rows, reports + [rows];
      }
      return Go;
    }

    /** What was written since the feed was made. */
    ghost function Written(): seq<Event>
      reads this, w
    {
      if |was| <= |w.log| then w.log[|was|..] else []
    }
  }

  /** A query runner, with its projection: the columns are worked out at the
      first row and kept. */
  method RunQuery(p: Projection, t: Table, f: Feed) returns (r: Call)
    requires f.Fed(Projected(p, t), 0) && !f.truncated
    modifies f, f.w
    ensures r == Go ==> f.Fed(Projected(p, t), |t.rows|) && !f.truncated
    ensures r == Go ==> f.o.maxRows > 0 ==> |t.rows| <= f.o.maxRows
    ensures r == Enough ==> f.truncated && f.o.maxRows > 0 && f.rows == f.o.maxRows < |t.rows| && f.begun
                            && f.reportedAt == Last(f.reports) <= f.rows && Spaced(f.reports, Every(f.o))
                            && f.w.log == f.was + ([Begun(Some(Projected(p, t).cols))] + Wrotes(Projected(p, t).rows[..f.rows]))
    ensures r == Failed ==> f.rows <= |t.rows| && BrokeOff(f.Written(), Some(Projected(p, t).cols), Projected(p, t).rows, f.rows)
                            && f.was <= f.w.log && (f.o.maxRows > 0 ==> f.rows <= f.o.maxRows)
                            && (|t.rows| == 0 ==> f.Written() == [])
  {
    hide Spaced, Wrotes, Resolved, BrokeOff;
    ghost var src := Projected(p, t);
    var idx: seq<nat> := [];
    var cols: Option<seq<string>> := None;
    for i := 0 to |t.rows|
      invariant f.Fed(src, i) && !f.truncated && (f.o.maxRows > 0 ==> i <= f.o.maxRows)
      invariant p.Some? && cols.Some? ==> cols.value == src.cols && idx == Resolved(p.value, t.cols)
    {
      var broke := *;
      if broke {
        BrokenOff(f.w.log, f.was, Some(src.cols), src.rows, f.rows, f.begun);
        return Failed;
      }
      if p == None {
        r := f.OnRow(src, t.cols, t.rows[i]);
      } else {
        if cols == None {
          idx := Resolve(p.value, t.cols);
          cols := Some(Picked(t.cols, idx, ""));
        }
        r := f.OnRow(src, cols.value, Picked(t.rows[i], idx, Null));
      }
      if r != Go {
        return;
      }
    }
    var late := *;
    if late {
      BrokenOff(f.w.log, f.was, Some(src.cols), src.rows, f.rows, f.begun);
      return Failed;
    }
    return Go;
  }

  /** StreamQuery: the rows of one pass. */
  method StreamQuery(w: Writer, p: Projection, t: Table, o: Options)
      returns (rows: nat, truncated: bool, reports: seq<nat>, ok: bool)
    modifies w
    ensures var src := Projected(p, t);
            var n := Exported(|t.rows|, o);
            var cols := if |t.rows| == 0 then None else Some(src.cols);
            if ok then
              && rows == n && w.log == old(w.log) + Output(cols, src.rows[..n])
              && (truncated <==> o.maxRows > 0 && |t.rows| > o.maxRows)
              && Reported(reports, rows, Every(o))
            else
              rows <= n && old(w.log) <= w.log && BrokeOff(w.log[|old(w.log)|..], cols, src.rows, rows)
  {
    hide Projected, Spaced, Reported, Wrotes;
    ghost var src, was := Projected(p, t), w.log;
    StartReports(Every(o));
    var f := new Feed(w, o);
    var call := RunQuery(p, t, f);
    rows, truncated, reports, ok := f.rows, f.truncated, f.reports, true;
    if call == Failed {
      ok := false;
      return;
    }
    NothingWrote(src.rows);
    if !f.begun {
      ok := w.Begin(None);
      if !ok {
        BrokenOff(w.log, was, None, src.rows, 0, false);
        return;
      }
    }
    SpacedEnds(reports, Every(o));
    if rows != f.reportedAt {
      reports := reports + [rows];
    }
    ok := w.End();
    if !ok {
      BrokenOff(w.log, was, if |t.rows| == 0 then None else Some(src.cols), src.rows, rows, true);
    }
  }
}
