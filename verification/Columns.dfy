/** Pinned and hidden columns of the data grid (internal/ui/colview.go): the
    display order, and the cursor that walks it. */
module Columns {
  import opened Streams

  predicate Distinct<T(==)>(s: seq<T>) { forall i, j :: 0 <= i < j < |s| ==> s[i] != s[j] }

  /** The pinned columns, in the order they were pinned. */
  function PinnedPart(cols: seq<string>, pinned: seq<string>, hidden: seq<string>): (out: seq<nat>)
    ensures Distinct(out) && forall i :: 0 <= i < |out| ==> out[i] < |cols| && cols[out[i]] !in hidden
  {
    if pinned == [] then []
    else
      var less, name := PinnedPart(cols, pinned[..|pinned| - 1], hidden), pinned[|pinned| - 1];
      var i := FirstOf(cols, name);
      if i < |cols| && name !in hidden && i !in less then less + [i] else less
  }

  /** The columns before n that are neither hidden nor in out, after out. */
  function WithRest(cols: seq<string>, hidden: seq<string>, out: seq<nat>, n: nat): seq<nat>
    requires n <= |cols|
  {
    if n == 0 then out
    else
      var less := WithRest(cols, hidden, out, n - 1);
      if cols[n - 1] !in hidden && n - 1 !in less then less + [n - 1] else less
  }

  predicate AllHidden(cols: seq<string>, hidden: seq<string>) { forall i :: 0 <= i < |cols| ==> cols[i] in hidden }

  /** 0, 1, ..., n - 1. */
  function Upto(n: nat): (r: seq<nat>)
    ensures |r| == n && forall i :: 0 <= i < n ==> r[i] == i
  {
    if n == 0 then [] else Upto(n - 1) + [n - 1]
  }

  /** visibleOrder: never empty for a result that has columns. */
  function Order(cols: seq<string>, pinned: seq<string>, hidden: seq<string>): seq<nat> {
    var out := WithRest(cols, hidden, PinnedPart(cols, pinned, hidden), |cols|);
    if out == [] then Upto(|cols|) else out
  }

  function PinnedCount(cols: seq<string>, pinned: seq<string>, hidden: seq<string>): (n: nat)
    ensures n <= |pinned|
  {
    if pinned == [] then 0
    else
      var name := pinned[|pinned| - 1];
      PinnedCount(cols, pinned[..|pinned| - 1], hidden) + if FirstOf(cols, name) < |cols| && name !in hidden then 1 else 0
  }

  lemma {:induction false} RestIs(cols: seq<string>, hidden: seq<string>, out: seq<nat>, n: nat)
    requires n <= |cols| && Distinct(out)
    requires forall i :: 0 <= i < |out| ==> out[i] < |cols| && cols[out[i]] !in hidden
    ensures var r := WithRest(cols, hidden, out, n);
            && Distinct(r) && out <= r
            && (forall i :: 0 <= i < |r| ==> r[i] < |cols| && cols[r[i]] !in hidden)
            && (forall i :: 0 <= i < n && cols[i] !in hidden ==> i in r)
            && (forall i, j :: |out| <= i < j < |r| ==> r[i] < r[j])
            && (forall i :: |out| <= i < |r| ==> r[i] < n)
  {
    if n > 0 {
      RestIs(cols, hidden, out, n - 1);
    }
  }

  /** The display order holds every column that is not hidden, once; a hidden set
      that would leave nothing is ignored. */
  lemma OrderShows(cols: seq<string>, pinned: seq<string>, hidden: seq<string>)
    ensures var order := Order(cols, pinned, hidden);
            && Distinct(order)
            && (forall i :: 0 <= i < |order| ==> order[i] < |cols|)
            && (forall i :: 0 <= i < |cols| ==> (i in order <==> cols[i] !in hidden || AllHidden(cols, hidden)))
            && (cols != [] ==> order != [])
  {
    hide WithRest, PinnedPart;
    var pins := PinnedPart(cols, pinned, hidden);
    RestIs(cols, hidden, pins, |cols|);
    var out := WithRest(cols, hidden, pins, |cols|);
    if out == [] {
      forall i | 0 <= i < |cols|
        ensures cols[i] in hidden && i in Upto(|cols|)
      {
        assert Upto(|cols|)[i] == i;
        assert cols[i] !in hidden ==> i in out;
      }
    } else {
      assert cols[out[0]] !in hidden;
    }
  }

  lemma {:induction false} PinsAre(cols: seq<string>, pinned: seq<string>, hidden: seq<string>)
    requires Distinct(pinned)
    ensures var pins := PinnedPart(cols, pinned, hidden);
            && |pins| == PinnedCount(cols, pinned, hidden)
            && forall i :: 0 <= i < |pins| ==> cols[pins[i]] in pinned && pins[i] == FirstOf(cols, cols[pins[i]])
  {
    if pinned != [] {
      var less, name := pinned[..|pinned| - 1], pinned[|pinned| - 1];
      PinsAre(cols, less, hidden);
      assert forall k :: 0 <= k < |less| ==> less[k] == pinned[k] != name;
    }
  }

  /** As long as no name is pinned twice, the pinned columns lead the order, and
      the others follow in table order. */
  lemma PinnedLead(cols: seq<string>, pinned: seq<string>, hidden: seq<string>)
    requires Distinct(pinned)
    ensures var order, n := Order(cols, pinned, hidden), PinnedCount(cols, pinned, hidden);
            && n <= |order| && order[..n] == PinnedPart(cols, pinned, hidden)
            && forall i, j :: n <= i < j < |order| ==> order[i] < order[j]
  {
    hide WithRest, PinnedPart, PinnedCount;
    PinsAre(cols, pinned, hidden);
    RestIs(cols, hidden, PinnedPart(cols, pinned, hidden), |cols|);
  }

  function Clamp(v: int, lo: int, hi: int): int {
    var u := if v > hi then hi else v;
    if u < lo then lo else u
  }

  /** The sequence without its element at i: slices.Delete. */
  function Without(s: seq<string>, i: nat): seq<string>
    requires i < |s|
  {
    s[..i] + s[i + 1..]
  }

  class DataView {
    const cols: seq<string>
    var pinned: seq<string>
    var hidden: seq<string>
    var col: nat

    constructor (cols: seq<string>)
      requires cols != []
      ensures Valid() && this.cols == cols && pinned == [] && hidden == [] && col == 0
    {
      this.cols, pinned, hidden, col := cols, [], [], 0;
      new;
      OrderShows(cols, [], []);
      assert cols[0] !in [];
    }

    function Visible(): seq<nat>
      reads `pinned, `hidden
    {
      Order(cols, pinned, hidden)
    }

    /** No name is pinned twice, and the cursor is on a column that is drawn. */
    ghost predicate Valid()
      reads this
    {
      cols != [] && Distinct(pinned) && col < |cols| && col in Visible()
    }

    /** visibleOrder. */
    method VisibleOrder() returns (out: seq<nat>)
      ensures out == Visible()
    {
      out := [];
      for k := 0 to |pinned|
        invariant out == PinnedPart(cols, pinned[..k], hidden)
      {
        assert pinned[..k + 1][..k] == pinned[..k];
        var i := FirstOf(cols, pinned[k]);
        if i < |cols| && pinned[k] !in hidden && i !in out {
          out := out + [i];
        }
      }
      assert pinned[..|pinned|] == pinned;
      ghost var pins := out;
      for i := 0 to |cols|
        invariant out == WithRest(cols, hidden, pins, i)
      {
        if cols[i] !in hidden && i !in out {
          out := out + [i];
        }
      }
      if |out| == 0 && |cols| > 0 {
        for i := 0 to |cols|
          invariant out == Upto(i)
        {
          out := out + [i];
        }
      }
    }

    /** colHidden, for a column of the result. */
    predicate Hidden(c: nat)
      reads `pinned, `hidden
    {
      c < |cols| && c !in Visible()
    }

    /** stepCol: the cursor moves through the display order and stops at its
        edges. */
    method StepCol(delta: int)
      requires Valid()
      modifies `col
      ensures Valid()
      ensures exists p :: 0 <= p < |Visible()| && Visible()[p] == old(col) && Visible()[Clamp(p + delta, 0, |Visible()| - 1)] == col
    {
      hide Order;
      OrderShows(cols, pinned, hidden);
      var order := VisibleOrder();
      var p := PositionOf(order, col);
      col := order[Clamp(p + delta, 0, |order| - 1)];
    }

    /** settleCol: a cursor that lost its column goes to the next one drawn, or
        to the last one before it. */
    method SettleCol()
      requires cols != [] && col < |cols|
      modifies `col
      ensures col < |cols| && !Hidden(col)
      ensures !old(Hidden(col)) ==> col == old(col)
      ensures old(Hidden(col)) && col > old(col) ==> forall c :: old(col) <= c < col ==> Hidden(c)
      ensures old(Hidden(col)) && col < old(col) ==> forall c :: col < c < |cols| ==> Hidden(c)
    {
      hide Order;
      OrderShows(cols, pinned, hidden);
      assert !Hidden(Visible()[0]);
      if !Hidden(col) {
        return;
      }
      var c: int := col + 1;
      while c < |cols|
        invariant col + 1 <= c <= |cols| && forall i :: col <= i < c ==> Hidden(i)
      {
        if !Hidden(c) {
          col := c;
          return;
        }
        c := c + 1;
      }
      c := col - 1;
      while c >= 0
        invariant -1 <= c < col && forall i :: c < i < |cols| ==> Hidden(i)
      {
        if !Hidden(c) {
          col := c;
          return;
        }
        c := c - 1;
      }
    }

    /** togglePin on the cursor column. */
    method TogglePin()
      requires Valid()
      modifies `pinned
      ensures Valid() && (cols[col] in pinned <==> cols[col] !in old(pinned))
      ensures forall name :: name != cols[col] ==> (name in pinned <==> name in old(pinned))
    {
      hide Order;
      var name := cols[col];
      OrderShows(cols, pinned, hidden);
      if name in pinned {
        var i := PositionOf(pinned, name);
        WithoutOne(pinned, i);
        pinned := Without(pinned, i);
      } else {
        pinned := pinned + [name];
      }
      OrderShows(cols, pinned, hidden);
    }

    /** hideColumn: the last column drawn stays. Otherwise the columns of that
        name are drawn no more and the name is not pinned; the cursor moves on.
        Only if nothing else is left are they all drawn again, and the cursor
        stays. */
    method HideColumn()
      requires Valid()
      modifies this
      ensures Valid()
      ensures if |old(Visible())| <= 1 then unchanged(this)
              else hidden == old(hidden) + [old(cols[col])] && old(cols[col]) !in pinned
      ensures |old(Visible())| > 1 ==>
                forall name :: name != old(cols[col]) ==> (name in pinned <==> name in old(pinned))
      ensures |old(Visible())| > 1 ==>
                (old(col) in Visible() <==> forall i :: 0 <= i < |cols| ==> cols[i] == old(cols[col]) || cols[i] in old(hidden))
      ensures |old(Visible())| > 1 && old(col) !in Visible() ==>
                forall i :: 0 <= i < |cols| ==> (i in Visible() <==> i in old(Visible()) && cols[i] != old(cols[col]))
      ensures if old(col) in Visible() then col == old(col)
              else if col > old(col) then forall c :: old(col) <= c < col ==> Hidden(c)
              else col < old(col) && forall c :: col < c < |cols| ==> Hidden(c)
    {
      hide Order;
      OrderShows(cols, pinned, hidden);
      var order := VisibleOrder();
      if |order| <= 1 {
        return;
      }
      var name := cols[col];
      hidden := hidden + [name];
      if name in pinned {
        var i := PositionOf(pinned, name);
        WithoutOne(pinned, i);
        pinned := Without(pinned, i);
      }
      OrderShows(cols, pinned, hidden);
      SettleCol();
    }
  }

  method PositionOf<T(==)>(s: seq<T>, x: T) returns (i: nat)
    requires x in s
    ensures i < |s| && s[i] == x && x !in s[..i]
  {
    i := 0;
    while s[i] != x
      invariant i < |s| && x !in s[..i]
      decreases |s| - i
    {
      assert s[..i + 1] == s[..i] + [s[i]];
      assert s == s[..i + 1] + s[i + 1..];
      i := i + 1;
    }
  }

  lemma WithoutOne(s: seq<string>, i: nat)
    requires Distinct(s) && i < |s|
    ensures Distinct(Without(s, i)) && s[i] !in Without(s, i)
    ensures forall x :: x != s[i] ==> (x in s <==> x in Without(s, i))
  {
    var r := Without(s, i);
    forall x | x in s && x != s[i]
      ensures x in r
    {
      var k :| 0 <= k < |s| && s[k] == x;
      assert r[if k < i then k else k - 1] == x;
    }
  }
}
