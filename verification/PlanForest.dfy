/** The SQLite plan (internal/db/explain.go): id and parent rows become a forest,
    and the forest becomes indented lines. Every row is shown exactly once,
    under its parent, exactly when the parent links have no cycle. */
module PlanForest {
  import opened Wrappers

  /** A row of EXPLAIN QUERY PLAN. */
  datatype PlanRow = PlanRow(id: int, parent: int, detail: string)

  /** A node of the plan, with the number of the row it was made from. */
  datatype Node = Node(row: nat, text: string, children: seq<Node>)

  // ---------- parents ----------

  /** The last row with an id, or the length when there is none. */
  function LastWith(rows: seq<PlanRow>, id: int): (i: nat)
    ensures i <= |rows| && (i < |rows| ==> rows[i].id == id && forall j :: i < j < |rows| ==> rows[j].id != id)
    ensures i == |rows| ==> forall j :: 0 <= j < |rows| ==> rows[j].id != id
  {
    if rows == [] then 0
    else
      var n := |rows| - 1;
      if rows[n].id == id then n
      else
        var i := LastWith(rows[..n], id);
        if i == n then n + 1 else i
  }

  /** The row that row i is attached to: the one its parent names, unless that
      is not in the result or is the row itself. */
  function ParentOf(rows: seq<PlanRow>, i: nat): (r: Option<nat>)
    requires i < |rows|
    ensures r.Some? ==> r.value < |rows| && rows[r.value].id == rows[i].parent
  {
    var p := LastWith(rows, rows[i].parent);
    if p < |rows| && rows[i].parent != rows[i].id then Some(p) else None
  }

  type Links = seq<Option<nat>>

  predicate Closed(par: Links) { forall i :: 0 <= i < |par| && par[i].Some? ==> par[i].value < |par| }

  function LinksOf(rows: seq<PlanRow>): (par: Links)
    ensures |par| == |rows| && Closed(par)
  {
    seq(|rows|, i requires 0 <= i < |rows| => ParentOf(rows, i))
  }

  /** The rows of par[..n] whose parent is p, in order; None asks for the roots. */
  function Kids(par: Links, p: Option<nat>, n: nat): (r: seq<nat>)
    requires n <= |par|
    ensures forall k :: 0 <= k < |r| ==> r[k] < n && par[r[k]] == p
    ensures forall j :: 0 <= j < n && par[j] == p ==> j in r
    ensures forall k, m :: 0 <= k < m < |r| ==> r[k] < r[m]
  {
    if n == 0 then [] else Kids(par, p, n - 1) + if par[n - 1] == p then [n - 1] else []
  }

  // ---------- levels ----------

  /** Row i is k links below a root. */
  predicate AtLevel(par: Links, i: nat, k: nat)
    requires Closed(par)
    decreases k
  {
    i < |par| && if k == 0 then par[i] == None else par[i].Some? && AtLevel(par, par[i].value, k - 1)
  }

  lemma {:induction false} LevelUnique(par: Links, i: nat, k: nat, m: nat)
    requires Closed(par) && AtLevel(par, i, k) && AtLevel(par, i, m)
    ensures k == m
    decreases k
  {
    if k > 0 && m > 0 {
      LevelUnique(par, par[i].value, k - 1, m - 1);
    }
  }

  ghost predicate Rooted(par: Links, i: nat)
    requires Closed(par)
  {
    exists k: nat :: AtLevel(par, i, k)
  }

  ghost predicate Distinct(p: seq<nat>) { forall i, j :: 0 <= i < j < |p| ==> p[i] != p[j] }

  /** The row numbers below n. */
  function Below(n: nat): (s: set<int>)
    ensures |s| == n && forall i :: i in s <==> 0 <= i < n
  {
    if n == 0 then {} else Below(n - 1) + {n - 1}
  }

  lemma DistinctFits(p: seq<nat>, n: nat)
    requires Distinct(p) && forall i :: 0 <= i < |p| ==> p[i] < n
    ensures |p| <= n
  {
    DistinctIn(p, Below(n));
  }

  lemma {:induction false} DistinctIn(p: seq<nat>, u: set<int>)
    requires Distinct(p) && forall i :: 0 <= i < |p| ==> p[i] in u
    ensures |p| <= |u|
  {
    if p != [] {
      var n := |p| - 1;
      assert p[n] in u;
      DistinctIn(p[..n], u - {p[n]});
    }
  }

  /** The way from a root down to a row: one row a level. */
  ghost predicate Path(par: Links, path: seq<nat>)
    requires Closed(par)
  {
    path != [] && forall k :: 0 <= k < |path| ==> AtLevel(par, path[k], k)
  }

  lemma PathFits(par: Links, path: seq<nat>)
    requires Closed(par) && Path(par, path)
    ensures |path| <= |par|
  {
    forall i, j | 0 <= i < j < |path|
      ensures path[i] != path[j]
    {
      assert AtLevel(par, path[i], i) && AtLevel(par, path[j], j);
      if path[i] == path[j] { LevelUnique(par, path[i], i, j); }
    }
    forall i | 0 <= i < |path|
      ensures path[i] < |par|
    {
      assert AtLevel(par, path[i], i);
    }
    DistinctFits(path, |par|);
  }

  lemma PathDown(par: Links, path: seq<nat>, c: nat)
    requires Closed(par) && Path(par, path) && c < |par| && par[c] == Some(path[|path| - 1])
    ensures Path(par, path + [c])
  {
    var more := path + [c];
    forall k | 0 <= k < |more|
      ensures AtLevel(par, more[k], k)
    {
      if k < |path| { assert more[k] == path[k] && AtLevel(par, path[k], k); }
      else { assert AtLevel(par, path[k - 1], k - 1); }
    }
  }

  lemma PathUp(par: Links, path: seq<nat>)
    requires Closed(par) && Path(par, path)
    ensures path[|path| - 1] < |par| && AtLevel(par, path[|path| - 1], |path| - 1)
  {
  }

  // ---------- the forest ----------

  /** The node of row e with everything below it; path is the way down to e. */
  function Tree(rows: seq<PlanRow>, par: Links, e: nat, ghost path: seq<nat>): (n: Node)
    requires Closed(par) && |rows| == |par| && Path(par, path) && path[|path| - 1] == e < |par|
    ensures n.row == e
    decreases |par| + 1 - |path|, 1
  {
    PathFits(par, path);
    Node(e, rows[e].detail, Trees(rows, par, Kids(par, Some(e), |par|), path))
  }

  function Trees(rows: seq<PlanRow>, par: Links, es: seq<nat>, ghost path: seq<nat>): (ns: seq<Node>)
    requires Closed(par) && |rows| == |par| && Path(par, path)
    requires forall k :: 0 <= k < |es| ==> es[k] < |par| && par[es[k]] == Some(path[|path| - 1])
    ensures |ns| == |es| && forall k :: 0 <= k < |ns| ==> ns[k].row == es[k]
    decreases |par| + 1 - |path|, 0, |es|
  {
    if es == [] then []
    else
      var n := |es| - 1;
      PathDown(par, path, es[n]);
      PathFits(par, path + [es[n]]);
      Trees(rows, par, es[..n], path) + [Tree(rows, par, es[n], path + [es[n]])]
  }

  lemma RootPath(par: Links, e: nat)
    requires Closed(par) && e < |par| && par[e] == None
    ensures Path(par, [e])
  {
    assert AtLevel(par, [e][0], 0);
  }

  /** A tree at the top. */
  function Root(rows: seq<PlanRow>, par: Links, e: nat): (n: Node)
    requires Closed(par) && |rows| == |par| && e < |par| && par[e] == None
    ensures n.row == e
  {
    RootPath(par, e);
    Tree(rows, par, e, [e])
  }

  function Roots(rows: seq<PlanRow>, par: Links, es: seq<nat>): (ns: seq<Node>)
    requires Closed(par) && |rows| == |par| && forall k :: 0 <= k < |es| ==> es[k] < |par| && par[es[k]] == None
    ensures |ns| == |es| && forall k :: 0 <= k < |ns| ==> ns[k].row == es[k]
  {
    if es == [] then []
    else
      var n := |es| - 1;
      Roots(rows, par, es[..n]) + [Root(rows, par, es[n])]
  }

  function Forest(rows: seq<PlanRow>): seq<Node> {
    var par := LinksOf(rows);
    Roots(rows, par, Kids(par, None, |par|))
  }

  // ---------- the methods ----------

  /** The recursive build: an entry, then its children in their order. */
  method Build(rows: seq<PlanRow>, kids: array<seq<nat>>, e: nat, ghost par: Links, ghost path: seq<nat>) returns (n: Node)
    requires Closed(par) && |rows| == |par| == kids.Length && Path(par, path) && path[|path| - 1] == e < |par|
    requires forall i :: 0 <= i < kids.Length ==> kids[i] == Kids(par, Some(i), |par|)
    ensures n == Tree(rows, par, e, path)
    decreases |par| + 1 - |path|
  {
    PathFits(par, path);
    var es := kids[e];
    var ns: seq<Node> := [];
    for k := 0 to |es|
      invariant ns == Trees(rows, par, es[..k], path)
    {
      PathDown(par, path, es[k]);
      PathFits(par, path + [es[k]]);
      assert es[..k + 1][..k] == es[..k];
      var child := Build(rows, kids, es[k], par, path + [es[k]]);
      ns := ns + [child];
    }
    assert es[..|es|] == es;
    return Node(e, rows[e].detail, ns);
  }

  /** The first loop: entries by id, the last of an id winning. */
  method Index(rows: seq<PlanRow>) returns (byID: map<int, nat>)
    ensures forall id :: id in byID <==> LastWith(rows, id) < |rows|
    ensures forall id :: id in byID ==> byID[id] == LastWith(rows, id)
  {
    byID := map[];
    for i := 0 to |rows|
      invariant forall id :: id in byID <==> LastWith(rows[..i], id) < i
      invariant forall id :: id in byID ==> byID[id] == LastWith(rows[..i], id)
    {
      assert rows[..i + 1][..i] == rows[..i];
      byID := byID[rows[i].id := i];
    }
    assert rows[..|rows|] == rows;
  }

  /** The lists after the first n rows were attached. */
  ghost predicate Attached(par: Links, kids: seq<seq<nat>>, roots: seq<nat>, n: nat) {
    && n <= |par| && |kids| == |par| && roots == Kids(par, None, n)
    && forall k :: 0 <= k < |kids| ==> kids[k] == Kids(par, Some(k), n)
  }

  lemma AttachStep(par: Links, kids: seq<seq<nat>>, roots: seq<nat>, n: nat)
    requires Attached(par, kids, roots, n) && n < |par| && Closed(par)
    ensures match par[n]
            case None => Attached(par, kids, roots + [n], n + 1)
            case Some(p) => Attached(par, kids[p := kids[p] + [n]], roots, n + 1)
  {
  }

  /** The second loop: every entry is appended to its parent's list, or to the
      roots. */
  method Attach(rows: seq<PlanRow>, kids: array<seq<nat>>) returns (roots: seq<nat>)
    requires kids.Length == |rows| && forall k :: 0 <= k < |rows| ==> kids[k] == []
    modifies kids
    ensures Attached(LinksOf(rows), kids[..], roots, |rows|)
  {
    hide ParentOf, Attached, LastWith, LinksOf;
    var byID := Index(rows);
    ghost var par := LinksOf(rows);
    roots := [];
    NothingAttached(par, kids[..]);
    for i := 0 to |rows|
      invariant Attached(par, kids[..], roots, i)
    {
      var r := rows[i];
      LinkIs(rows, i);
      AttachStep(par, kids[..], roots, i);
      if r.parent in byID && r.parent != r.id {
        var p := byID[r.parent];
        ghost var was := kids[..];
        kids[p] := kids[p] + [i];
        assert kids[..] == was[p := was[p] + [i]];
      } else {
        roots := roots + [i];
      }
    }
  }

  lemma NothingAttached(par: Links, kids: seq<seq<nat>>)
    requires |kids| == |par| && forall k :: 0 <= k < |kids| ==> kids[k] == []
    ensures Attached(par, kids, [], 0)
  {
  }

  /** BuildSQLitePlan. */
  method BuildSQLitePlan(rows: seq<PlanRow>) returns (out: seq<Node>)
    ensures out == Forest(rows)
  {
    hide ParentOf, Tree, LinksOf, Kids, Path, LastWith;
    ghost var par := LinksOf(rows);
    var kids := new seq<nat>[|rows|](i => []);
    var roots := Attach(rows, kids);
    assert forall i :: 0 <= i < |rows| ==> kids[i] == kids[..][i];
    out := [];
    for k := 0 to |roots|
      invariant forall i :: 0 <= i < |rows| ==> kids[i] == Kids(par, Some(i), |par|)
      invariant out == Roots(rows, par, roots[..k])
    {
      RootPath(par, roots[k]);
      assert roots[..k + 1][..k] == roots[..k];
      var n := Build(rows, kids, roots[k], par, [roots[k]]);
      out := out + [n];
    }
    assert roots[..|roots|] == roots;
  }

  lemma LinkIs(rows: seq<PlanRow>, i: nat)
    requires i < |rows|
    ensures var p := LastWith(rows, rows[i].parent);
            LinksOf(rows)[i] == if p < |rows| && rows[i].parent != rows[i].id then Some(p) else None
  {
  }

  // ---------- what the forest shows ----------

  function TreeRows(n: Node): seq<nat> { [n.row] + ForestRows(n.children) }

  /** The rows of a forest, in the order they are drawn. */
  function ForestRows(ns: seq<Node>): seq<nat> {
    if ns == [] then [] else ForestRows(ns[..|ns| - 1]) + TreeRows(ns[|ns| - 1])
  }

  /** How often row r is drawn. */
  function Shown(ns: seq<Node>, r: nat): nat { multiset(ForestRows(ns))[r] }

  /** The k-th row up from r. */
  function Up(par: Links, r: nat, k: nat): (q: Option<nat>)
    requires Closed(par) && r < |par|
    ensures q.Some? ==> q.value < |par|
  {
    if k == 0 then Some(r)
    else match Up(par, r, k - 1) case None => None case Some(q) => par[q]
  }

  /** Row r is d links below e, which is at level k. */
  ghost predicate UnderAt(par: Links, e: nat, k: nat, r: nat, d: nat)
    requires Closed(par) && r < |par|
  {
    AtLevel(par, r, k + d) && Up(par, r, d) == Some(e)
  }

  ghost predicate Under(par: Links, e: nat, k: nat, r: nat)
    requires Closed(par) && r < |par|
  {
    exists d: nat :: UnderAt(par, e, k, r, d)
  }

  lemma UnderOne(par: Links, c: nat, e: nat, k: nat, r: nat)
    requires Closed(par) && r < |par| && Under(par, c, k, r) && Under(par, e, k, r)
    ensures c == e
  {
    var d: nat :| UnderAt(par, c, k, r, d);
    var m: nat :| UnderAt(par, e, k, r, m);
    LevelUnique(par, r, k + d, k + m);
  }

  ghost predicate UnderSome(par: Links, es: seq<nat>, k: nat, r: nat)
    requires Closed(par) && r < |par|
  {
    exists i :: 0 <= i < |es| && Under(par, es[i], k, r)
  }

  lemma UnderSnoc(par: Links, es: seq<nat>, k: nat, r: nat)
    requires Closed(par) && r < |par| && es != [] && Distinct(es)
    ensures var n := |es| - 1;
            && (UnderSome(par, es, k, r) <==> UnderSome(par, es[..n], k, r) || Under(par, es[n], k, r))
            && !(UnderSome(par, es[..n], k, r) && Under(par, es[n], k, r))
  {
    hide Under;
    var n := |es| - 1;
    if UnderSome(par, es[..n], k, r) {
      var i :| 0 <= i < n && Under(par, es[..n][i], k, r);
      assert es[i] == es[..n][i];
      if Under(par, es[n], k, r) { UnderOne(par, es[i], es[n], k, r); }
    }
    if UnderSome(par, es, k, r) {
      var i :| 0 <= i < |es| && Under(par, es[i], k, r);
      assert i < n ==> es[..n][i] == es[i];
    }
  }

  lemma ShownSnoc(ns: seq<Node>, n: Node, r: nat)
    ensures Shown(ns + [n], r) == Shown(ns, r) + (if n.row == r then 1 else 0) + Shown(n.children, r)
  {
    assert (ns + [n])[..|ns|] == ns;
    assert multiset(TreeRows(n)) == multiset{n.row} + multiset(ForestRows(n.children));
  }

  lemma UnderBy(par: Links, e: nat, k: nat, r: nat, d: nat)
    requires Closed(par) && r < |par| && UnderAt(par, e, k, r, d)
    ensures Under(par, e, k, r)
  {
  }

  lemma UnderKid(par: Links, e: nat, k: nat, r: nat, c: nat)
    requires Closed(par) && r < |par| && Under(par, c, k + 1, r) && c < |par| && par[c] == Some(e)
    ensures Under(par, e, k, r)
    ensures AtLevel(par, e, k) ==> r != e
  {
    var d: nat :| UnderAt(par, c, k + 1, r, d);
    hide AtLevel, Under;
    assert Up(par, r, d + 1) == Some(e);
    assert k + 1 + d == k + (d + 1);
    UnderBy(par, e, k, r, d + 1);
    if AtLevel(par, r, k) { LevelUnique(par, r, k, k + 1 + d); }
  }

  lemma KidUnder(par: Links, e: nat, k: nat, r: nat)
    requires Closed(par) && r < |par| && Under(par, e, k, r) && r != e
    ensures UnderSome(par, Kids(par, Some(e), |par|), k + 1, r)
  {
    var es := Kids(par, Some(e), |par|);
    hide Kids, AtLevel;
    var d: nat :| UnderAt(par, e, k, r, d);
    var c := Up(par, r, d - 1).value;
    assert UnderAt(par, c, k + 1, r, d - 1);
    assert par[c] == Some(e);
    assert c in es;
    var i :| 0 <= i < |es| && es[i] == c;
    assert Under(par, es[i], k + 1, r);
  }

  lemma SomeUnder(par: Links, es: seq<nat>, k: nat, r: nat) returns (c: nat)
    requires Closed(par) && r < |par| && UnderSome(par, es, k, r)
    ensures c in es && Under(par, c, k, r)
  {
    hide Under;
    var i :| 0 <= i < |es| && Under(par, es[i], k, r);
    c := es[i];
  }

  /** Below a child of e, or e itself. */
  lemma UnderChild(par: Links, e: nat, k: nat, r: nat)
    requires Closed(par) && r < |par| && AtLevel(par, e, k)
    ensures Under(par, e, k, r) <==> r == e || UnderSome(par, Kids(par, Some(e), |par|), k + 1, r)
    ensures r == e ==> !UnderSome(par, Kids(par, Some(e), |par|), k + 1, r)
  {
    hide Kids, UnderSome;
    if r == e { assert UnderAt(par, e, k, r, 0); }
    hide Under, AtLevel;
    if UnderSome(par, Kids(par, Some(e), |par|), k + 1, r) {
      var c := SomeUnder(par, Kids(par, Some(e), |par|), k + 1, r);
      UnderKid(par, e, k, r, c);
    } else if Under(par, e, k, r) && r != e {
      KidUnder(par, e, k, r);
    }
  }

  lemma KidsDistinct(par: Links, p: Option<nat>)
    ensures Distinct(Kids(par, p, |par|))
  {
    hide Kids;
  }

  /** A node's subtree draws every row below it once and no other. */
  lemma {:induction false} TreeShows(rows: seq<PlanRow>, par: Links, e: nat, path: seq<nat>, r: nat)
    requires Closed(par) && |rows| == |par| && Path(par, path) && path[|path| - 1] == e < |par| && r < |par|
    ensures var n := Tree(rows, par, e, path);
            (if n.row == r then 1 else 0) + Shown(n.children, r) == if Under(par, e, |path| - 1, r) then 1 else 0
    decreases |par| + 1 - |path|, 1
  {
    hide Kids, Under, UnderSome, Shown, AtLevel;
    PathFits(par, path);
    PathUp(par, path);
    var es := Kids(par, Some(e), |par|);
    KidsDistinct(par, Some(e));
    TreesShow(rows, par, es, path, r);
    UnderChild(par, e, |path| - 1, r);
  }

  lemma {:induction false} TreesShow(rows: seq<PlanRow>, par: Links, es: seq<nat>, path: seq<nat>, r: nat)
    requires Closed(par) && |rows| == |par| && Path(par, path) && r < |par| && Distinct(es)
    requires forall k :: 0 <= k < |es| ==> es[k] < |par| && par[es[k]] == Some(path[|path| - 1])
    ensures Shown(Trees(rows, par, es, path), r) == if UnderSome(par, es, |path|, r) then 1 else 0
    decreases |par| + 1 - |path|, 0, |es|
  {
    hide Under, Tree, AtLevel;
    if es != [] {
      var n := |es| - 1;
      PathDown(par, path, es[n]);
      PathFits(par, path + [es[n]]);
      TreesShow(rows, par, es[..n], path, r);
      TreeShows(rows, par, es[n], path + [es[n]], r);
      ShownSnoc(Trees(rows, par, es[..n], path), Tree(rows, par, es[n], path + [es[n]]), r);
      UnderSnoc(par, es, |path|, r);
    }
  }

  lemma {:induction false} RootsShow(rows: seq<PlanRow>, par: Links, es: seq<nat>, r: nat)
    requires Closed(par) && |rows| == |par| && r < |par| && Distinct(es)
    requires forall k :: 0 <= k < |es| ==> es[k] < |par| && par[es[k]] == None
    ensures Shown(Roots(rows, par, es), r) == if UnderSome(par, es, 0, r) then 1 else 0
  {
    hide Under, Tree, AtLevel;
    if es != [] {
      var n := |es| - 1;
      RootPath(par, es[n]);
      RootsShow(rows, par, es[..n], r);
      TreeShows(rows, par, es[n], [es[n]], r);
      ShownSnoc(Roots(rows, par, es[..n]), Tree(rows, par, es[n], [es[n]]), r);
      UnderSnoc(par, es, 0, r);
    }
  }

  /** From level k it is k links to a root. */
  lemma {:induction false} UpToRoot(par: Links, r: nat, k: nat, d: nat)
    requires Closed(par) && AtLevel(par, r, k) && d <= k
    ensures Up(par, r, d).Some? && AtLevel(par, Up(par, r, d).value, k - d)
    decreases d
  {
    if d > 0 {
      UpToRoot(par, r, k, d - 1);
    }
  }

  lemma RootedUnder(par: Links, r: nat)
    requires Closed(par) && r < |par|
    ensures Rooted(par, r) <==> UnderSome(par, Kids(par, None, |par|), 0, r)
  {
    var es := Kids(par, None, |par|);
    if Rooted(par, r) {
      var k: nat :| AtLevel(par, r, k);
      UpToRoot(par, r, k, k);
      var e := Up(par, r, k).value;
      assert UnderAt(par, e, 0, r, k);
      assert e in es;
      var i :| 0 <= i < |es| && es[i] == e;
    }
    if UnderSome(par, es, 0, r) {
      var i :| 0 <= i < |es| && Under(par, es[i], 0, r);
      var d: nat :| UnderAt(par, es[i], 0, r, d);
      assert AtLevel(par, r, d);
    }
  }

  /** The forest draws a row once when it hangs from a root and not at all when
      its parents go round in a circle. */
  lemma ForestShows(rows: seq<PlanRow>, r: nat)
    requires r < |rows|
    ensures Shown(Forest(rows), r) == if Rooted(LinksOf(rows), r) then 1 else 0
  {
    hide Kids, Shown, UnderSome, Rooted, LinksOf;
    var par := LinksOf(rows);
    KidsDistinct(par, None);
    RootsShow(rows, par, Kids(par, None, |par|), r);
    RootedUnder(par, r);
  }

  // ---------- circles ----------

  /** Rows that are each other's parents, round in a circle. */
  ghost predicate IsCycle(par: Links, c: seq<nat>) {
    && c != []
    && (forall i :: 0 <= i < |c| ==> c[i] < |par|)
    && (forall i :: 0 <= i < |c| - 1 ==> par[c[i]] == Some(c[i + 1]))
    && par[c[|c| - 1]] == Some(c[0])
  }

  ghost predicate HasCycle(par: Links) { exists c :: IsCycle(par, c) }

  lemma {:induction false} CycleClimbs(par: Links, c: seq<nat>, k: nat, i: nat)
    requires Closed(par) && IsCycle(par, c) && AtLevel(par, c[0], k) && i < |c|
    ensures k >= i && AtLevel(par, c[i], k - i)
    decreases i
  {
    if i > 0 {
      CycleClimbs(par, c, k, i - 1);
      assert par[c[i - 1]] == Some(c[i - 1 + 1]) == Some(c[i]);
    }
  }

  lemma CycleUnrooted(par: Links, c: seq<nat>)
    requires Closed(par) && IsCycle(par, c)
    ensures !Rooted(par, c[0])
  {
    if Rooted(par, c[0]) {
      var k: nat :| AtLevel(par, c[0], k);
      CycleClimbs(par, c, k, |c| - 1);
      assert AtLevel(par, c[0], k - |c|);
      LevelUnique(par, c[0], k, k - |c|);
    }
  }

  /** Climbing from a row that hangs from no root never ends, and so comes back. */
  lemma ClimbRound(par: Links, p: seq<nat>)
    requires Closed(par) && p != [] && Distinct(p)
    requires forall i :: 0 <= i < |p| ==> p[i] < |par| && !Rooted(par, p[i])
    requires forall i :: 0 <= i < |p| - 1 ==> par[p[i]] == Some(p[i + 1])
    ensures HasCycle(par)
    decreases |par| - |p|
  {
    var last := p[|p| - 1];
    DistinctFits(p, |par|);
    assert par[last].Some? by {
      if par[last] == None { assert AtLevel(par, last, 0); }
    }
    var q := par[last].value;
    if Rooted(par, q) {
      var k: nat :| AtLevel(par, q, k);
      assert AtLevel(par, last, k + 1);
    }
    if q in p {
      var i :| 0 <= i < |p| && p[i] == q;
      assert IsCycle(par, p[i..]);
    } else {
      var more := p + [q];
      DistinctFits(more, |par|);
      ClimbRound(par, more);
    }
  }

  /** Every row is drawn exactly once if and only if the parent links have no
      cycle. */
  lemma EveryRowOnce(rows: seq<PlanRow>)
    ensures (forall r: nat :: r < |rows| ==> Shown(Forest(rows), r) == 1) <==> !HasCycle(LinksOf(rows))
  {
    hide Shown, LinksOf, Forest, IsCycle;
    var par := LinksOf(rows);
    forall r: nat | r < |rows|
      ensures Shown(Forest(rows), r) == 1 <==> Rooted(par, r)
    {
      ForestShows(rows, r);
    }
    if HasCycle(par) {
      var c :| IsCycle(par, c);
      CycleUnrooted(par, c);
      CycleInside(par, c);
      assert Shown(Forest(rows), c[0]) != 1;
    } else {
      forall r: nat | r < |rows|
        ensures Rooted(par, r)
      {
        if !Rooted(par, r) { ClimbRound(par, [r]); }
      }
    }
  }

  lemma CycleInside(par: Links, c: seq<nat>)
    requires IsCycle(par, c)
    ensures c != [] && c[0] < |par|
  {
  }

  // ---------- rendering ----------

  function Indent(depth: nat): string {
    if depth == 0 then "" else "  " + Indent(depth - 1)
  }

  /** The head line of a node. */
  function Head(text: string, depth: nat): string {
    Indent(depth) + (if depth > 0 then "-> " else "") + text
  }

  /** nodeLines, for nodes without details and notes. */
  function NodeLines(n: Node, depth: nat): seq<string> { [Head(n.text, depth)] + AllLines(n.children, depth + 1) }

  function AllLines(ns: seq<Node>, depth: nat): seq<string> {
    if ns == [] then [] else AllLines(ns[..|ns| - 1], depth) + NodeLines(ns[|ns| - 1], depth)
  }

  /** Line i is the head line of row rs[i], indented to its level. */
  ghost predicate LinesAre(rows: seq<PlanRow>, par: Links, rs: seq<nat>, lines: seq<string>)
    requires Closed(par) && |par| == |rows|
  {
    |lines| == |rs| && forall i :: 0 <= i < |rs| ==> LineIs(rows, par, rs[i], lines[i])
  }

  ghost predicate LineIs(rows: seq<PlanRow>, par: Links, r: nat, line: string)
    requires Closed(par) && |par| == |rows|
  {
    exists k: nat :: AtLevel(par, r, k) && r < |rows| && line == Head(rows[r].detail, k)
  }

  lemma LinesJoin(rows: seq<PlanRow>, par: Links, a: seq<nat>, la: seq<string>, b: seq<nat>, lb: seq<string>)
    requires Closed(par) && |par| == |rows| && LinesAre(rows, par, a, la) && LinesAre(rows, par, b, lb)
    ensures LinesAre(rows, par, a + b, la + lb)
  {
    hide LineIs;
  }

  lemma {:induction false} TreeLines(rows: seq<PlanRow>, par: Links, e: nat, path: seq<nat>)
    requires Closed(par) && |rows| == |par| && Path(par, path) && path[|path| - 1] == e < |par|
    ensures var n := Tree(rows, par, e, path); LinesAre(rows, par, TreeRows(n), NodeLines(n, |path| - 1))
    decreases |par| + 1 - |path|, 1
  {
    hide Kids, AtLevel, Head;
    PathFits(par, path);
    PathUp(par, path);
    var es := Kids(par, Some(e), |par|);
    TreesLines(rows, par, es, path);
    var n := Tree(rows, par, e, path);
    assert LineIs(rows, par, e, Head(n.text, |path| - 1));
    LinesJoin(rows, par, [e], [Head(n.text, |path| - 1)], ForestRows(n.children), AllLines(n.children, |path|));
  }

  lemma {:induction false} TreesLines(rows: seq<PlanRow>, par: Links, es: seq<nat>, path: seq<nat>)
    requires Closed(par) && |rows| == |par| && Path(par, path)
    requires forall k :: 0 <= k < |es| ==> es[k] < |par| && par[es[k]] == Some(path[|path| - 1])
    ensures var ns := Trees(rows, par, es, path); LinesAre(rows, par, ForestRows(ns), AllLines(ns, |path|))
    decreases |par| + 1 - |path|, 0, |es|
  {
    hide Tree, AtLevel, NodeLines, TreeRows, LineIs;
    if es != [] {
      var n := |es| - 1;
      PathDown(par, path, es[n]);
      PathFits(par, path + [es[n]]);
      TreesLines(rows, par, es[..n], path);
      TreeLines(rows, par, es[n], path + [es[n]]);
      var before, t := Trees(rows, par, es[..n], path), Tree(rows, par, es[n], path + [es[n]]);
      assert (before + [t])[..n] == before;
      LinesJoin(rows, par, ForestRows(before), AllLines(before, |path|), TreeRows(t), NodeLines(t, |path|));
    }
  }

  lemma {:induction false} RootsLines(rows: seq<PlanRow>, par: Links, es: seq<nat>)
    requires Closed(par) && |rows| == |par| && forall k :: 0 <= k < |es| ==> es[k] < |par| && par[es[k]] == None
    ensures var ns := Roots(rows, par, es); LinesAre(rows, par, ForestRows(ns), AllLines(ns, 0))
  {
    hide Tree, AtLevel, NodeLines, TreeRows, LineIs;
    if es != [] {
      var n := |es| - 1;
      RootPath(par, es[n]);
      RootsLines(rows, par, es[..n]);
      TreeLines(rows, par, es[n], [es[n]]);
      var before, t := Roots(rows, par, es[..n]), Tree(rows, par, es[n], [es[n]]);
      assert (before + [t])[..n] == before;
      LinesJoin(rows, par, ForestRows(before), AllLines(before, 0), TreeRows(t), NodeLines(t, 0));
    }
  }

  /** The plan is rendered as one line a row, each indented to its level. */
  lemma OneLineARow(rows: seq<PlanRow>)
    ensures LinesAre(rows, LinksOf(rows), ForestRows(Forest(rows)), AllLines(Forest(rows), 0))
  {
    hide LinksOf, Kids, Roots;
    RootsLines(rows, LinksOf(rows), Kids(LinksOf(rows), None, |rows|));
  }

  /** Every node shows its row's text, over all rows that have it for a parent,
      in row order. */
  ghost predicate Placed(rows: seq<PlanRow>, par: Links, n: Node)
    requires |par| == |rows|
  {
    n.row < |rows| && n.text == rows[n.row].detail && AllPlaced(rows, par, n.children, Kids(par, Some(n.row), |par|))
  }

  /** The nodes are those of the rows es, one by one. */
  ghost predicate AllPlaced(rows: seq<PlanRow>, par: Links, ns: seq<Node>, es: seq<nat>)
    requires |par| == |rows|
  {
    if ns == [] || es == [] then ns == [] && es == []
    else
      var k, m := |ns| - 1, |es| - 1;
      ns[k].row == es[m] && Placed(rows, par, ns[k]) && AllPlaced(rows, par, ns[..k], es[..m])
  }

  lemma {:induction false} TreePlaced(rows: seq<PlanRow>, par: Links, e: nat, path: seq<nat>)
    requires Closed(par) && |rows| == |par| && Path(par, path) && path[|path| - 1] == e < |par|
    ensures Placed(rows, par, Tree(rows, par, e, path))
    decreases |par| + 1 - |path|, 1
  {
    hide Kids, AtLevel;
    PathFits(par, path);
    TreesPlaced(rows, par, Kids(par, Some(e), |par|), path);
  }

  lemma {:induction false} TreesPlaced(rows: seq<PlanRow>, par: Links, es: seq<nat>, path: seq<nat>)
    requires Closed(par) && |rows| == |par| && Path(par, path)
    requires forall k :: 0 <= k < |es| ==> es[k] < |par| && par[es[k]] == Some(path[|path| - 1])
    ensures AllPlaced(rows, par, Trees(rows, par, es, path), es)
    decreases |par| + 1 - |path|, 0, |es|
  {
    hide Tree, AtLevel;
    if es != [] {
      var n := |es| - 1;
      PathDown(par, path, es[n]);
      PathFits(par, path + [es[n]]);
      TreesPlaced(rows, par, es[..n], path);
      TreePlaced(rows, par, es[n], path + [es[n]]);
      PlacedSnoc(rows, par, Trees(rows, par, es[..n], path), Tree(rows, par, es[n], path + [es[n]]), es);
    }
  }

  lemma PlacedSnoc(rows: seq<PlanRow>, par: Links, ns: seq<Node>, n: Node, es: seq<nat>)
    requires |par| == |rows| && es != [] && AllPlaced(rows, par, ns, es[..|es| - 1]) && n.row == es[|es| - 1] && Placed(rows, par, n)
    ensures AllPlaced(rows, par, ns + [n], es)
  {
    assert (ns + [n])[..|ns|] == ns;
  }

  lemma {:induction false} RootsPlaced(rows: seq<PlanRow>, par: Links, es: seq<nat>)
    requires Closed(par) && |rows| == |par| && forall k :: 0 <= k < |es| ==> es[k] < |par| && par[es[k]] == None
    ensures AllPlaced(rows, par, Roots(rows, par, es), es)
  {
    hide Tree, AtLevel;
    if es != [] {
      var n := |es| - 1;
      RootPath(par, es[n]);
      RootsPlaced(rows, par, es[..n]);
      TreePlaced(rows, par, es[n], [es[n]]);
      PlacedSnoc(rows, par, Roots(rows, par, es[..n]), Tree(rows, par, es[n], [es[n]]), es);
    }
  }

  /** The forest: the rows without a parent in the result at the top, in row
      order, and below every row its children in row order. */
  lemma ForestPlaced(rows: seq<PlanRow>)
    ensures AllPlaced(rows, LinksOf(rows), Forest(rows), Kids(LinksOf(rows), None, |rows|))
  {
    RootsPlaced(rows, LinksOf(rows), Kids(LinksOf(rows), None, |rows|));
  }

  /** With distinct ids the row a row hangs from is the one its parent names. */
  lemma DistinctIds(rows: seq<PlanRow>, i: nat, j: nat)
    requires i < |rows| && j < |rows| && forall a, b :: 0 <= a < b < |rows| ==> rows[a].id != rows[b].id
    ensures ParentOf(rows, i) == Some(j) <==> rows[j].id == rows[i].parent && i != j
  {
  }
}
