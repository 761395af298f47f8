/** The windows of the data grid (internal/ui/datagrid.go): which columns and
    rows are drawn. The cursor is always among them, nothing is drawn twice,
    what is drawn fits, and laying out again from where the windows settled
    changes nothing. */
module Grid {
  import opened Columns

  const MIN_COL_WIDTH: nat := 4
  const COL_GAP: nat := 1

  // ---------- the column window ----------

  /** The width of columns s to e - 1 with the gaps between them. */
  function Wide(ws: seq<nat>, s: nat, e: nat): nat
    requires s <= e <= |ws|
    decreases e - s
  {
    if s == e then 0
    else if e == s + 1 then ws[s]
    else Wide(ws, s, e - 1) + COL_GAP + ws[e - 1]
  }

  lemma {:induction false} WideGrows(ws: seq<nat>, s: nat, e: nat, f: nat)
    requires s <= e <= f <= |ws|
    ensures Wide(ws, s, e) <= Wide(ws, s, f)
    decreases f - e
  {
    if e < f {
      WideGrows(ws, s, e, f - 1);
    }
  }

  /** A window from t does not reach the cursor. */
  predicate Misses(ws: seq<nat>, cursor: nat, w: int, t: nat)
    requires cursor < |ws|
  {
    t < cursor && Wide(ws, t, cursor + 1) > w
  }

  /** The window that starts at or after o and is scrolled just far enough to
      show the cursor: it fits or is one column, it could not be wider, and no
      earlier start would have reached the cursor. */
  ghost predicate IsWindow(ws: seq<nat>, cursor: nat, w: int, o: nat, s: nat, e: nat) {
    && o <= s <= cursor < e <= |ws|
    && (Wide(ws, s, e) <= w || e == s + 1)
    && (e < |ws| ==> Wide(ws, s, e + 1) > w)
    && forall t :: o <= t < s ==> Misses(ws, cursor, w, t)
  }

  lemma WindowUnique(ws: seq<nat>, cursor: nat, w: int, o: nat, s: nat, e: nat, s': nat, e': nat)
    requires IsWindow(ws, cursor, w, o, s, e) && IsWindow(ws, cursor, w, o, s', e')
    ensures s == s' && e == e'
  {
    if s != s' {
      var lo, end := if s < s' then s else s', if s < s' then e else e';
      assert Misses(ws, cursor, w, lo);
      WideGrows(ws, lo, cursor + 1, end);
    } else if e != e' {
      var lo, hi := if e < e' then e else e', if e < e' then e' else e;
      WideGrows(ws, s, lo + 1, hi);
    }
  }

  method ColumnWindow(ws: seq<nat>, cursor: int, w: int, off: int) returns (start: nat, end: nat)
    ensures ws == [] ==> start == end == 0
    ensures ws != [] ==>
              var c := Clamp(cursor, 0, |ws| - 1);
              IsWindow(ws, c, w, Clamp(off, 0, c), start, end)
  {
    if |ws| == 0 {
      return 0, 0;
    }
    var c := Clamp(cursor, 0, |ws| - 1);
    var o := Clamp(off, 0, c);
    start := o;
    while start <= c
      invariant o <= start <= c
      invariant forall t :: o <= t < start ==> Misses(ws, c, w, t)
      decreases c - start
    {
      var total := 0;
      end := start;
      while end < |ws|
        invariant start <= end <= |ws| && total == Wide(ws, start, end)
        invariant end > start ==> total <= w
      {
        var need := ws[end] + if end > start then COL_GAP else 0;
        assert Wide(ws, start, end + 1) == total + need;
        if total + need > w {
          break;
        }
        total := total + need;
        end := end + 1;
      }
      ghost var reach := end;
      if end == start {
        end := start + 1;
      }
      if c < end {
        return;
      }
      WideGrows(ws, start, reach + 1, c + 1);
      assert Misses(ws, c, w, start);
      start := start + 1;
    }
    assert false;
  }

  // ---------- the row window ----------

  function RowWindow(n: int, cursor: int, rows: int, off: int): (int, int) {
    if rows <= 0 || n <= 0 then (0, 0)
    else
      var c := Clamp(cursor, 0, n - 1);
      var o := Clamp(Clamp(off, c - rows + 1, c), 0, if n - rows > 0 then n - rows else 0);
      (o, if o + rows > n then n else o + rows)
  }

  /** The cursor row is in the window, there is no gap under the last row, and a
      window that already shows the cursor stays where it is. */
  lemma RowWindowShows(n: int, cursor: int, rows: int, off: int)
    requires rows > 0 && n > 0
    ensures var (s, e) := RowWindow(n, cursor, rows, off);
            var c := Clamp(cursor, 0, n - 1);
            && 0 <= s <= c < e <= n
            && e - s == (if rows < n then rows else n)
            && (0 <= off <= c < off + rows && (off + rows <= n || off == 0) ==> s == off)
            && RowWindow(n, cursor, rows, s) == (s, e)
  {
  }

  // ---------- the layout ----------

  datatype Layout = Layout(pinned: nat, cs: nat, ce: nat, rs: int, re: int, hint: bool)

  /** What the layout is made from: the display order with the widths of its
      columns, how many are pinned, where in the order the cursor is, and how
      many columns are hidden. */
  datatype Page = Page(order: seq<nat>, ws: seq<nat>, pinned: nat, pos: nat, hidden: nat, rows: nat, row: int) {
    ghost predicate Valid() {
      && |ws| == |order| && Distinct(order) && pinned <= |order| && pos < |order|
      && forall i :: 0 <= i < |ws| ==> ws[i] >= MIN_COL_WIDTH
    }
  }

  /** The width the first n columns take, each with its gap. */
  function EdgeWidth(ws: seq<nat>, n: nat): nat
    requires n <= |ws|
  {
    if n == 0 then 0 else EdgeWidth(ws, n - 1) + ws[n - 1] + COL_GAP
  }

  function BodyRows(h: int, hint: bool): int {
    var rows := h - 4 - if hint then 1 else 0;
    if rows > 0 then rows else 0
  }

  /** How many columns stay pinned: none when they would leave no room for the
      cursor's column. */
  function KeptPins(p: Page, w: int): (n: nat)
    requires p.Valid()
    ensures n <= |p.order|
  {
    var need := if p.pos >= p.pinned then p.ws[p.pos] else 0;
    if p.pinned > 0 && EdgeWidth(p.ws, p.pinned) + need > w then 0 else p.pinned
  }

  function ScrollWidth(p: Page, w: int): int
    requires p.Valid()
  {
    var sw := w - EdgeWidth(p.ws, KeptPins(p, w));
    if sw > 1 then sw else 1
  }

  /** The column the scrolling part has to show, and where it starts from. */
  function Anchor(p: Page, w: int, colOff: int): (int, int)
    requires p.Valid()
  {
    var n := KeptPins(p, w);
    if p.pos >= n then (p.pos - n, Clamp(colOff, 0, p.pos - n))
    else (Clamp(colOff, 0, |p.order| - n - 1), Clamp(colOff, 0, |p.order| - n - 1))
  }

  ghost predicate IsLayout(p: Page, w: int, h: int, colOff: int, rowOff: int, g: Layout)
    requires p.Valid()
  {
    var n := KeptPins(p, w);
    && g.pinned == n
    && (if n == |p.order| then g.cs == g.ce == n
        else
          var (c, o) := Anchor(p, w, colOff);
          && n <= g.cs && n <= g.ce && c >= 0 && o >= 0
          && IsWindow(p.ws[n..], c, ScrollWidth(p, w), o, g.cs - n, g.ce - n))
    && g.hint == (g.cs > n || g.ce < |p.order| || p.hidden > 0)
    && (g.rs, g.re) == RowWindow(p.rows, p.row, BodyRows(h, g.hint), rowOff)
  }

  method PinnedWidth(ws: seq<nat>, n: nat) returns (pinW: nat)
    requires n <= |ws|
    ensures pinW == EdgeWidth(ws, n)
  {
    pinW := 0;
    for i := 0 to n
      invariant pinW == EdgeWidth(ws, i)
    {
      pinW := pinW + ws[i] + COL_GAP;
    }
  }

  lemma NoEdge(ws: seq<nat>)
    ensures EdgeWidth(ws, 0) == 0
  {
  }

  lemma ClampInside(v: int, lo: int, hi: int)
    requires lo <= hi
    ensures lo <= Clamp(v, lo, hi) <= hi
    ensures lo <= v <= hi ==> Clamp(v, lo, hi) == v
  {
  }

  /** gridLayout. */
  method GridLayout(p: Page, w: int, h: int, colOff: int, rowOff: int) returns (g: Layout)
    requires p.Valid()
    ensures IsLayout(p, w, h, colOff, rowOff, g)
  {
    hide EdgeWidth, IsWindow, RowWindow, Clamp;
    var pinned := p.pinned;
    var pinW := PinnedWidth(p.ws, pinned);
    var need := 0;
    if p.pos >= pinned {
      need := p.ws[p.pos];
    }
    if pinned > 0 && pinW + need > w {
      pinned, pinW := 0, 0;
      NoEdge(p.ws);
    }
    var scroll := p.ws[pinned..];
    var sw := if w - pinW > 1 then w - pinW else 1;
    var cs, ce := 0, 0;
    if |scroll| == 0 {
    } else if p.pos >= pinned {
      ClampInside(p.pos - pinned, 0, |scroll| - 1);
      ClampInside(colOff, 0, p.pos - pinned);
      cs, ce := ColumnWindow(scroll, p.pos - pinned, sw, colOff);
    } else {
      var off := Clamp(colOff, 0, |scroll| - 1);
      ClampInside(colOff, 0, |scroll| - 1);
      ClampInside(off, 0, |scroll| - 1);
      ClampInside(off, 0, off);
      cs, ce := ColumnWindow(scroll, off, sw, off);
    }
    cs, ce := pinned + cs, pinned + ce;
    var hint := cs > pinned || ce < |p.order| || p.hidden > 0;
    var r := RowWindow(p.rows, p.row, BodyRows(h, hint), rowOff);
    g := Layout(pinned, cs, ce, r.0, r.1, hint);
  }

  /** The columns of the frame, left to right. */
  function Drawn(p: Page, g: Layout): seq<nat>
    requires g.pinned <= g.cs <= g.ce <= |p.order|
  {
    p.order[..g.pinned] + p.order[g.cs..g.ce]
  }

  /** Their width. */
  function DrawnWidth(p: Page, g: Layout): nat
    requires g.pinned <= g.cs <= g.ce <= |p.order| == |p.ws|
  {
    var ws := p.ws[..g.pinned] + p.ws[g.cs..g.ce];
    Wide(ws, 0, |ws|)
  }

  lemma {:induction false} WideShift(ws: seq<nat>, n: nat, s: nat, e: nat)
    requires n <= |ws| && s <= e <= |ws| - n
    ensures Wide(ws[n..], s, e) == Wide(ws, n + s, n + e)
    decreases e - s
  {
    if s < e {
      WideShift(ws, n, s, e - 1);
    }
  }

  /** An edge of n columns and a window of k more, side by side. */
  lemma {:induction false} WideJoin(ws: seq<nat>, n: nat, cs: nat, k: nat)
    requires n <= cs && cs + k <= |ws|
    ensures var both := ws[..n] + ws[cs..cs + k];
            Wide(both, 0, n + k) == if k == 0 then (if n == 0 then 0 else EdgeWidth(ws, n) - COL_GAP)
                                    else EdgeWidth(ws, n) + Wide(ws, cs, cs + k)
    decreases n + k
  {
    var both := ws[..n] + ws[cs..cs + k];
    if k > 0 {
      WideJoin(ws, n, cs, k - 1);
      var less := ws[..n] + ws[cs..cs + (k - 1)];
      WidePrefix(less, both, n + k - 1);
      assert both[n + k - 1] == ws[cs + k - 1];
    } else if n > 0 {
      WideJoin(ws, n - 1, cs, 0);
      var less := ws[..n - 1] + ws[cs..cs + 0];
      WidePrefix(less, both, n - 1);
      assert both[n - 1] == ws[n - 1];
    }
  }

  lemma {:induction false} WidePrefix(a: seq<nat>, b: seq<nat>, n: nat)
    requires n <= |a| && n <= |b| && forall i :: 0 <= i < n ==> a[i] == b[i]
    ensures Wide(a, 0, n) == Wide(b, 0, n)
  {
    if n > 0 {
      WidePrefix(a, b, n - 1);
    }
  }

  /** Two columns and their gap take more than the one cell that pinned columns
      may leave. */
  lemma TwoAreWide(ws: seq<nat>, s: nat, e: nat)
    requires s + 2 <= e <= |ws| && forall i :: 0 <= i < |ws| ==> ws[i] >= MIN_COL_WIDTH
    ensures Wide(ws, s, e) > 1
  {
    WideGrows(ws, s, s + 1, e);
  }

  /** What is drawn: no column twice, the cursor's among them, and all in the box
      unless the scrolling part is down to one column; the cursor's row in the
      window, with no gap under the last row. */
  lemma LayoutShows(p: Page, w: int, h: int, colOff: int, rowOff: int, g: Layout)
    requires p.Valid() && IsLayout(p, w, h, colOff, rowOff, g)
    ensures g.pinned <= g.cs <= g.ce <= |p.order|
    ensures Distinct(Drawn(p, g)) && p.order[p.pos] in Drawn(p, g)
    ensures DrawnWidth(p, g) <= w || g.ce - g.cs == 1
    ensures p.rows > 0 && BodyRows(h, g.hint) > 0 ==>
              var body := BodyRows(h, g.hint);
              && g.rs <= Clamp(p.row, 0, p.rows - 1) < g.re <= p.rows
              && g.re - g.rs == if body < p.rows then body else p.rows
  {
    hide Wide, EdgeWidth;
    DrawnOnce(p, g);
    CursorDrawn(p, w, h, colOff, rowOff, g);
    DrawnFits(p, w, h, colOff, rowOff, g);
    if p.rows > 0 && BodyRows(h, g.hint) > 0 {
      RowWindowShows(p.rows, p.row, BodyRows(h, g.hint), rowOff);
    }
  }

  lemma DrawnOnce(p: Page, g: Layout)
    requires Distinct(p.order) && g.pinned <= g.cs <= g.ce <= |p.order|
    ensures Distinct(Drawn(p, g))
  {
  }

  lemma CursorDrawn(p: Page, w: int, h: int, colOff: int, rowOff: int, g: Layout)
    requires p.Valid() && IsLayout(p, w, h, colOff, rowOff, g)
    ensures g.pinned <= g.cs <= g.ce <= |p.order| && p.order[p.pos] in Drawn(p, g)
  {
    hide Wide, EdgeWidth, RowWindow;
    var d := Drawn(p, g);
    if p.pos < g.pinned {
      assert d[p.pos] == p.order[p.pos];
    } else {
      assert d[g.pinned + (p.pos - g.cs)] == p.order[p.pos];
    }
  }

  lemma DrawnFits(p: Page, w: int, h: int, colOff: int, rowOff: int, g: Layout)
    requires p.Valid() && IsLayout(p, w, h, colOff, rowOff, g)
    ensures g.pinned <= g.cs <= g.ce <= |p.order| && (DrawnWidth(p, g) <= w || g.ce - g.cs == 1)
  {
    hide Wide, RowWindow;
    var n, k := g.pinned, g.ce - g.cs;
    WideJoin(p.ws, n, g.cs, k);
    if n < |p.order| && k != 1 {
      WideShift(p.ws, n, g.cs - n, g.ce - n);
      TwoAreWide(p.ws, g.cs, g.ce);
    }
  }

  /** Laying out again from where the windows settled gives the same layout, and
      no other. */
  lemma LayoutSettles(p: Page, w: int, h: int, colOff: int, rowOff: int, g: Layout, g': Layout)
    requires p.Valid() && IsLayout(p, w, h, colOff, rowOff, g)
    ensures IsLayout(p, w, h, g.cs - g.pinned, g.rs, g)
    ensures IsLayout(p, w, h, g.cs - g.pinned, g.rs, g') ==> g' == g
  {
    hide Wide, EdgeWidth, RowWindow;
    RowsSettle(p.rows, p.row, BodyRows(h, g.hint), rowOff);
    var n := g.pinned;
    if n < |p.order| && IsLayout(p, w, h, g.cs - n, g.rs, g') {
      var (c, o) := Anchor(p, w, g.cs - n);
      WindowUnique(p.ws[n..], c, ScrollWidth(p, w), o, g.cs - n, g.ce - n, g'.cs - n, g'.ce - n);
    }
  }

  lemma RowsSettle(n: int, cursor: int, rows: int, off: int)
    ensures RowWindow(n, cursor, rows, RowWindow(n, cursor, rows, off).0) == RowWindow(n, cursor, rows, off)
  {
  }
}
