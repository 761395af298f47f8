/** The order of a whole-database DDL export (internal/db/ddlorder.go): every
    relation after the ones its foreign keys point at, or alphabetical when they
    form a cycle. */
module DdlOrder {

  // ---------- sort.Strings ----------

  predicate Leq(a: string, b: string) {
    if a == "" then true
    else if b == "" then false
    else a[0] < b[0] || (a[0] == b[0] && Leq(a[1..], b[1..]))
  }

  /** The strings agree up to n, and there a ends or has the smaller character. */
  predicate SmallerFrom(a: string, b: string, n: nat) {
    n <= |a| && n <= |b| && a[..n] == b[..n] && (n == |a| || (n < |b| && a[n] < b[n]))
  }

  /** Alphabetical order is decided where the two first differ. */
  lemma {:induction false} LeqDecided(a: string, b: string)
    ensures Leq(a, b) <==> exists n: nat :: SmallerFrom(a, b, n)
  {
    if a == "" {
      assert SmallerFrom(a, b, 0);
    } else if b != "" {
      LeqDecided(a[1..], b[1..]);
      if Leq(a, b) {
        if a[0] < b[0] {
          assert SmallerFrom(a, b, 0);
        } else {
          var n: nat :| SmallerFrom(a[1..], b[1..], n);
          assert a[..n + 1] == [a[0]] + a[1..][..n] && b[..n + 1] == [b[0]] + b[1..][..n];
          assert SmallerFrom(a, b, n + 1);
        }
      }
      forall n: nat | SmallerFrom(a, b, n)
        ensures Leq(a, b)
      {
        if n > 0 {
          assert a[..n][0] == a[0] && b[..n][0] == b[0];
          assert a[1..][..n - 1] == a[..n][1..] && b[1..][..n - 1] == b[..n][1..];
          assert SmallerFrom(a[1..], b[1..], n - 1);
        }
      }
    }
  }

  lemma {:induction false} LeqTotal(a: string, b: string)
    ensures Leq(a, b) || Leq(b, a)
  {
    if a != "" && b != "" {
      LeqTotal(a[1..], b[1..]);
    }
  }

  lemma {:induction false} LeqTransitive(a: string, b: string, c: string)
    requires Leq(a, b) && Leq(b, c)
    ensures Leq(a, c)
  {
    if a != "" && b != "" && c != "" && a[0] == b[0] == c[0] {
      LeqTransitive(a[1..], b[1..], c[1..]);
    }
  }

  predicate Ascending(s: seq<string>) {
    forall i, j :: 0 <= i < j < |s| ==> Leq(s[i], s[j])
  }

  function Insert(x: string, s: seq<string>): (r: seq<string>)
    requires Ascending(s)
    ensures Ascending(r) && multiset(r) == multiset(s) + multiset{x}
  {
    if s == [] || Leq(x, s[0]) then
      InsertFront(x, s);
      assert s != [] ==> forall j :: 0 < j < |s| ==> Leq(s[0], s[j]);
      [x] + s
    else
      LeqTotal(x, s[0]);
      assert s == [s[0]] + s[1..];
      var t := Insert(x, s[1..]);
      InsertLater(x, s, t);
      [s[0]] + t
  }

  lemma InsertFront(x: string, s: seq<string>)
    requires Ascending(s) && (s != [] ==> Leq(x, s[0]))
    ensures Ascending([x] + s)
  {
    hide Leq;
    forall j | 0 <= j < |s|
      ensures Leq(x, s[j])
    {
      if j > 0 { LeqTransitive(x, s[0], s[j]); }
    }
  }

  lemma InsertLater(x: string, s: seq<string>, t: seq<string>)
    requires s != [] && Ascending(s) && Ascending(t) && Leq(s[0], x)
    requires multiset(t) == multiset(s[1..]) + multiset{x}
    ensures Ascending([s[0]] + t)
  {
    hide Leq;
    forall j | 0 <= j < |t|
      ensures Leq(s[0], t[j])
    {
      assert t[j] in multiset(t);
      assert t[j] == x || t[j] in s[1..];
    }
  }

  function SortStrings(s: seq<string>): (r: seq<string>)
    ensures Ascending(r) && multiset(r) == multiset(s) && |r| == |s|
  {
    if s == [] then []
    else
      assert s == [s[0]] + s[1..];
      var r := Insert(s[0], SortStrings(s[1..]));
      assert |multiset(r)| == |multiset(s)|;
      r
  }

  // ---------- the graph ----------

  type Deps = map<string, seq<string>>

  /** A foreign key of t points at d, another relation of the export. */
  predicate References(tables: seq<string>, deps: Deps, t: string, d: string) {
    t in deps && d in deps[t] && d != t && d in tables
  }

  /** The relations that t has to wait for. */
  function DepsOf(tables: seq<string>, deps: Deps, t: string): set<string> {
    if t in deps then set d | d in deps[t] && d != t && d in tables else {}
  }

  /** A chain of references that comes back to where it started. */
  ghost predicate IsCycle(tables: seq<string>, deps: Deps, c: seq<string>) {
    && c != []
    && (forall i :: 0 <= i < |c| ==> c[i] in tables)
    && (forall i :: 0 <= i < |c| - 1 ==> References(tables, deps, c[i], c[i + 1]))
    && References(tables, deps, c[|c| - 1], c[0])
  }

  ghost predicate HasCycle(tables: seq<string>, deps: Deps) {
    exists c :: IsCycle(tables, deps, c)
  }

  /** Every relation comes after all it references. */
  ghost predicate Respects(tables: seq<string>, deps: Deps, order: seq<string>) {
    forall i :: 0 <= i < |order| ==> forall d :: References(tables, deps, order[i], d) ==> d in order[..i]
  }

  lemma DepsAre(tables: seq<string>, deps: Deps)
    ensures forall t, d :: d in DepsOf(tables, deps, t) <==> References(tables, deps, t, d)
  {
  }

  function Flat(rounds: seq<seq<string>>): seq<string> {
    if rounds == [] then [] else Flat(rounds[..|rounds| - 1]) + rounds[|rounds| - 1]
  }

  /** Round by round: a round has, in alphabetical order, exactly the relations
      that are left and reference nothing but relations of earlier rounds. */
  ghost predicate InRounds(tables: seq<string>, deps: Deps, rounds: seq<seq<string>>) {
    forall k :: 0 <= k < |rounds| ==> Ascending(rounds[k]) && IsRound(tables, deps, Flat(rounds[..k]), rounds[k])
  }

  ghost predicate IsRound(tables: seq<string>, deps: Deps, before: seq<string>, round: seq<string>) {
    forall t :: t in round <==> t in tables && t !in before && forall d :: References(tables, deps, t, d) ==> d in before
  }

  /** The elements of tables that are in s, in order. */
  function Keep(tables: seq<string>, s: set<string>): (r: seq<string>)
    ensures forall x :: x in r <==> x in tables && x in s
    ensures |r| <= |tables|
  {
    if tables == [] then [] else (if tables[0] in s then [tables[0]] else []) + Keep(tables[1..], s)
  }

  lemma {:induction false} KeepSum(tables: seq<string>, a: set<string>, b: set<string>)
    requires a !! b
    ensures multiset(Keep(tables, a + b)) == multiset(Keep(tables, a)) + multiset(Keep(tables, b))
    ensures |Keep(tables, a + b)| == |Keep(tables, a)| + |Keep(tables, b)|
  {
    if tables != [] {
      KeepSum(tables[1..], a, b);
    }
  }

  lemma {:induction false} KeepAll(tables: seq<string>, s: set<string>)
    requires |Keep(tables, s)| == |tables|
    ensures Keep(tables, s) == tables
  {
    if tables != [] {
      KeepAll(tables[1..], s);
    }
  }

  lemma {:induction false} KeepSnoc(tables: seq<string>, x: string, s: set<string>)
    ensures Keep(tables + [x], s) == Keep(tables, s) + if x in s then [x] else []
  {
    if tables == [] {
      assert tables + [x] == [x] && [x][1..] == [];
    } else {
      assert (tables + [x])[1..] == tables[1..] + [x];
      KeepSnoc(tables[1..], x, s);
    }
  }

  // ---------- cycles ----------

  ghost predicate Distinct(p: seq<string>) {
    forall i, j :: 0 <= i < j < |p| ==> p[i] != p[j]
  }

  lemma {:induction false} DistinctFits(p: seq<string>, u: set<string>)
    requires Distinct(p) && forall i :: 0 <= i < |p| ==> p[i] in u
    ensures |p| <= |u|
  {
    if p != [] {
      var n := |p| - 1;
      assert p[n] in u;
      DistinctFits(p[..n], u - {p[n]});
    }
  }

  /** Walking from relation to relation that is still waited for has to come
      back to one that was passed. */
  lemma Walk(tables: seq<string>, deps: Deps, u: set<string>, p: seq<string>)
    requires p != [] && Distinct(p) && forall i :: 0 <= i < |p| ==> p[i] in u
    requires forall i :: 0 <= i < |p| - 1 ==> References(tables, deps, p[i], p[i + 1])
    requires forall t :: t in u ==> t in tables && DepsOf(tables, deps, t) * u != {}
    ensures HasCycle(tables, deps)
    decreases |u| - |p|
  {
    DepsAre(tables, deps);
    hide DepsOf, References;
    DistinctFits(p, u);
    var last := p[|p| - 1];
    var d :| d in DepsOf(tables, deps, last) * u;
    if d in p {
      var i :| 0 <= i < |p| && p[i] == d;
      var c := p[i..];
      assert IsCycle(tables, deps, c);
    } else {
      var q := p + [d];
      DistinctFits(q, u);
      Walk(tables, deps, u, q);
    }
  }

  lemma StuckHasCycle(tables: seq<string>, deps: Deps, u: set<string>)
    requires u != {} && forall t :: t in u ==> t in tables && DepsOf(tables, deps, t) * u != {}
    ensures HasCycle(tables, deps)
  {
    var t :| t in u;
    Walk(tables, deps, u, [t]);
  }

  /** In an order that respects the references, what a chain of references
      leads to comes earlier. */
  lemma {:induction false} ChainGoesBack(tables: seq<string>, deps: Deps, order: seq<string>, c: seq<string>, k: nat, at: nat)
    requires Respects(tables, deps, order) && c != [] && k < |c|
    requires forall i :: 0 <= i < |c| - 1 ==> References(tables, deps, c[i], c[i + 1])
    requires at < |order| && order[at] == c[0]
    ensures exists b :: 0 <= b <= at && b < |order| && order[b] == c[k] && (k > 0 ==> b < at)
  {
    hide References;
    if k > 0 {
      ChainGoesBack(tables, deps, order, c, k - 1, at);
      var b :| 0 <= b <= at && b < |order| && order[b] == c[k - 1] && (k - 1 > 0 ==> b < at);
      assert References(tables, deps, order[b], c[k - 1 + 1]);
      assert c[k] in order[..b];
      var b' :| 0 <= b' < b && order[..b][b'] == c[k];
      assert order[b'] == c[k];
    }
  }

  lemma RespectedNoCycle(tables: seq<string>, deps: Deps, order: seq<string>)
    requires Respects(tables, deps, order) && multiset(order) == multiset(tables)
    ensures !HasCycle(tables, deps)
  {
    hide References, Respects;
    if HasCycle(tables, deps) {
      var c :| IsCycle(tables, deps, c);
      assert c[0] in multiset(tables);
      assert c[0] in order;
      FirstPosition(order, c[0]);
      var at :| 0 <= at < |order| && order[at] == c[0] && forall j :: 0 <= j < at ==> order[j] != c[0];
      WayBack(tables, deps, order, c, at);
    }
  }

  lemma {:induction false} FirstPosition(order: seq<string>, x: string)
    requires x in order
    ensures exists at :: 0 <= at < |order| && order[at] == x && forall j :: 0 <= j < at ==> order[j] != x
  {
    var n := |order| - 1;
    if x in order[..n] {
      FirstPosition(order[..n], x);
      var at :| 0 <= at < n && order[..n][at] == x && forall j :: 0 <= j < at ==> order[..n][j] != x;
      assert order[at] == x && forall j :: 0 <= j < at ==> order[j] == order[..n][j];
    } else {
      assert order[n] == x;
      assert forall j :: 0 <= j < n ==> order[j] == order[..n][j];
    }
  }

  /** Wherever a cycle starts in the order, it starts earlier too. */
  lemma WayBack(tables: seq<string>, deps: Deps, order: seq<string>, c: seq<string>, at: nat)
    requires Respects(tables, deps, order) && IsCycle(tables, deps, c)
    requires at < |order| && order[at] == c[0]
    ensures exists z :: 0 <= z < at && order[z] == c[0]
  {
    hide References;
    ChainGoesBack(tables, deps, order, c, |c| - 1, at);
    var b :| 0 <= b <= at && b < |order| && order[b] == c[|c| - 1];
    assert c[0] in order[..b];
    var z :| 0 <= z < b && order[..b][z] == c[0];
    assert order[z] == c[0];
  }

  // ---------- DDLOrder ----------

  /** What the rounds keep: `order` is the emitted relations, each after what it
      references, and what is left waits for what is not emitted. */
  ghost predicate Progress(tables: seq<string>, deps: Deps, order: seq<string>, emitted: set<string>,
                           remaining: map<string, set<string>>) {
    && multiset(order) == multiset(Keep(tables, emitted)) && |order| == |Keep(tables, emitted)|
    && emitted <= (set t | t in tables)
    && Respects(tables, deps, order)
    && (forall x :: x in order <==> x in emitted)
    && (forall t :: t in tables <==> t in remaining)
    && (forall t :: t in tables && t !in emitted ==> remaining[t] == DepsOf(tables, deps, t) - emitted)
  }

  /** The first two loops: what every relation waits for. */
  method Collect(tables: seq<string>, deps: Deps) returns (remaining: map<string, set<string>>)
    ensures forall t :: t in tables <==> t in remaining
    ensures forall t :: t in tables ==> remaining[t] == DepsOf(tables, deps, t)
  {
    remaining := map[];
    for i := 0 to |tables|
      invariant forall t :: t in remaining <==> t in tables[..i]
      invariant forall t :: t in remaining ==> remaining[t] == DepsOf(tables, deps, t)
    {
      var t := tables[i];
      var rem: set<string> := {};
      if t in deps {
        var ds := deps[t];
        for j := 0 to |ds|
          invariant rem == set d | d in ds[..j] && d != t && d in tables
        {
          assert ds[..j + 1] == ds[..j] + [ds[j]];
          if ds[j] != t && ds[j] in tables {
            rem := rem + {ds[j]};
          }
        }
        assert ds[..|ds|] == ds;
      }
      assert tables[..i + 1] == tables[..i] + [t];
      remaining := remaining[t := rem];
    }
    assert tables[..|tables|] == tables;
  }

  ghost function ReadySet(tables: seq<string>, emitted: set<string>, remaining: map<string, set<string>>): set<string> {
    set t | t in tables && t !in emitted && t in remaining && remaining[t] == {}
  }

  /** The ready loop. */
  method CollectReady(tables: seq<string>, emitted: set<string>, remaining: map<string, set<string>>)
    returns (ready: seq<string>)
    requires forall t :: t in tables ==> t in remaining
    ensures ready == Keep(tables, ReadySet(tables, emitted, remaining))
  {
    ready := [];
    ghost var rs := ReadySet(tables, emitted, remaining);
    for i := 0 to |tables|
      invariant ready == Keep(tables[..i], rs)
    {
      var t := tables[i];
      assert tables[..i + 1] == tables[..i] + [t];
      KeepSnoc(tables[..i], t, rs);
      assert t in tables;
      if t !in emitted && remaining[t] == {} {
        ready := ready + [t];
      }
    }
    assert tables[..|tables|] == tables;
  }

  /** The last loop of a round: emitted relations are waited for no more. */
  method Discharge(tables: seq<string>, emitted: set<string>, remaining: map<string, set<string>>)
    returns (left: map<string, set<string>>)
    requires forall t :: t in tables <==> t in remaining
    ensures forall t :: t in tables <==> t in left
    ensures forall t :: t in tables && t !in emitted ==> left[t] == remaining[t] - emitted
  {
    left := remaining;
    for i := 0 to |tables|
      invariant forall t :: t in tables <==> t in left
      invariant forall t :: t in tables && t !in emitted ==>
                  left[t] == if t in tables[..i] then remaining[t] - emitted else remaining[t]
    {
      var t := tables[i];
      assert tables[..i + 1] == tables[..i] + [t];
      if t !in emitted {
        left := left[t := left[t] - emitted];
      }
    }
    assert tables[..|tables|] == tables;
  }

  lemma RoundRespects(tables: seq<string>, deps: Deps, order: seq<string>, emitted: set<string>,
                      remaining: map<string, set<string>>, ready: seq<string>)
    requires Progress(tables, deps, order, emitted, remaining)
    requires forall t :: t in ready ==> t in ReadySet(tables, emitted, remaining)
    ensures Respects(tables, deps, order + ready)
  {
    DepsAre(tables, deps);
    hide DepsOf, References, Keep;
    var all := order + ready;
    forall i, d | 0 <= i < |all| && References(tables, deps, all[i], d)
      ensures d in all[..i]
    {
      if i < |order| {
        assert all[i] == order[i] && all[..i] == order[..i];
      } else {
        var t := all[i];
        assert t in ready && t in ReadySet(tables, emitted, remaining);
        assert remaining[t] == {} == DepsOf(tables, deps, t) - emitted;
        assert d in DepsOf(tables, deps, t) && d !in DepsOf(tables, deps, t) - emitted;
        assert d in emitted && d in order;
        assert all[..i] == order + ready[..i - |order|];
      }
    }
  }

  lemma RoundCounts(tables: seq<string>, emitted: set<string>, rs: set<string>, order: seq<string>, ready: seq<string>)
    requires emitted !! rs
    requires multiset(order) == multiset(Keep(tables, emitted)) && |order| == |Keep(tables, emitted)|
    requires multiset(ready) == multiset(Keep(tables, rs)) && |ready| == |Keep(tables, rs)|
    ensures multiset(order + ready) == multiset(Keep(tables, emitted + rs))
    ensures |order + ready| == |Keep(tables, emitted + rs)|
  {
    hide Keep;
    KeepSum(tables, emitted, rs);
  }

  /** One round keeps what the rounds keep. */
  lemma Round(tables: seq<string>, deps: Deps, order: seq<string>, emitted: set<string>,
              remaining: map<string, set<string>>, ready: seq<string>, left: map<string, set<string>>)
    requires Progress(tables, deps, order, emitted, remaining)
    requires var rs := ReadySet(tables, emitted, remaining);
             multiset(ready) == multiset(Keep(tables, rs)) && |ready| == |Keep(tables, rs)|
    requires forall t :: t in tables <==> t in left
    requires var now := emitted + ReadySet(tables, emitted, remaining);
             forall t :: t in tables && t !in now ==> left[t] == remaining[t] - now
    ensures Progress(tables, deps, order + ready, emitted + ReadySet(tables, emitted, remaining), left)
    ensures forall t :: t in ready <==> t in ReadySet(tables, emitted, remaining)
  {
    hide DepsOf, Keep, Respects;
    var rs := ReadySet(tables, emitted, remaining);
    SameElements(ready, Keep(tables, rs));
    RoundRespects(tables, deps, order, emitted, remaining, ready);
    RoundCounts(tables, emitted, rs, order, ready);
  }

  lemma NoRounds(tables: seq<string>, deps: Deps)
    ensures InRounds(tables, deps, []) && Flat([]) == []
  {
  }

  lemma {:induction false} OneMoreRound(tables: seq<string>, deps: Deps, rounds: seq<seq<string>>, ready: seq<string>)
    requires InRounds(tables, deps, rounds) && Ascending(ready) && IsRound(tables, deps, Flat(rounds), ready)
    ensures InRounds(tables, deps, rounds + [ready])
  {
    hide Flat, IsRound, Ascending;
    var more := rounds + [ready];
    assert more[..|rounds|] == rounds;
    forall k | 0 <= k < |more|
      ensures Ascending(more[k]) && IsRound(tables, deps, Flat(more[..k]), more[k])
    {
      if k < |rounds| { assert more[..k] == rounds[..k]; }
    }
  }

  /** What is ready is the next round. */
  lemma {:induction false} NextRound(tables: seq<string>, deps: Deps, order: seq<string>, emitted: set<string>,
                                     remaining: map<string, set<string>>, rounds: seq<seq<string>>, ready: seq<string>)
    requires Progress(tables, deps, order, emitted, remaining) && Ascending(ready)
    requires forall t :: t in ready <==> t in ReadySet(tables, emitted, remaining)
    requires InRounds(tables, deps, rounds) && order == Flat(rounds)
    ensures InRounds(tables, deps, rounds + [ready]) && order + ready == Flat(rounds + [ready])
  {
    hide Flat, IsRound, Ascending, Progress, ReadySet, InRounds;
    ReadyIsRound(tables, deps, order, emitted, remaining, ready);
    OneMoreRound(tables, deps, rounds, ready);
    FlatSnoc(rounds, ready);
  }

  lemma FlatSnoc(rounds: seq<seq<string>>, ready: seq<string>)
    ensures Flat(rounds + [ready]) == Flat(rounds) + ready
  {
    assert (rounds + [ready])[..|rounds|] == rounds;
  }

  lemma ReadyIsRound(tables: seq<string>, deps: Deps, order: seq<string>, emitted: set<string>,
                     remaining: map<string, set<string>>, ready: seq<string>)
    requires Progress(tables, deps, order, emitted, remaining)
    requires forall t :: t in ready <==> t in ReadySet(tables, emitted, remaining)
    ensures IsRound(tables, deps, order, ready)
  {
    DepsAre(tables, deps);
    hide DepsOf, References, Keep, Respects;
    forall t | t in tables && t !in emitted
      ensures t in ready <==> forall d :: References(tables, deps, t, d) ==> d in order
    {
      var left := DepsOf(tables, deps, t) - emitted;
      assert remaining[t] == left;
      if left == {} {
        assert forall d :: References(tables, deps, t, d) ==> d in DepsOf(tables, deps, t) && d !in left;
      } else {
        var d :| d in left;
        assert References(tables, deps, t, d) && d !in order;
      }
    }
  }

  /** Marking a round's relations as emitted. */
  method MarkEmitted(emitted: set<string>, ready: seq<string>) returns (now: set<string>)
    ensures now == emitted + set t | t in ready
  {
    now := emitted;
    for i := 0 to |ready|
      invariant now == emitted + set t | t in ready[..i]
    {
      assert ready[..i + 1] == ready[..i] + [ready[i]];
      now := now + {ready[i]};
    }
    assert ready[..|ready|] == ready;
  }

  /** DDLOrder: a permutation of its input; acyclic exactly when the references
      within it form no cycle, and then every relation follows all it
      references; otherwise the sorted list. */
  method DDLOrder(tables: seq<string>, deps: Deps) returns (order: seq<string>, acyclic: bool)
    ensures multiset(order) == multiset(tables)
    ensures acyclic <==> !HasCycle(tables, deps)
    ensures acyclic ==> Respects(tables, deps, order)
    ensures acyclic ==> exists rounds :: InRounds(tables, deps, rounds) && order == Flat(rounds)
    ensures !acyclic ==> order == SortStrings(tables)
  {
    hide DepsOf, Keep, Respects, HasCycle, SortStrings, ReadySet, InRounds, Flat;
    ghost var rounds: seq<seq<string>> := [];
    assert InRounds(tables, deps, rounds) && Flat(rounds) == [] by { NoRounds(tables, deps); }
    var remaining := Collect(tables, deps);
    var emitted: set<string> := {};
    order := [];
    StartProgress(tables, deps, remaining);
    while |order| < |tables|
      invariant Progress(tables, deps, order, emitted, remaining)
      invariant InRounds(tables, deps, rounds) && order == Flat(rounds)
      decreases |tables| - |order|
    {
      var ready := CollectReady(tables, emitted, remaining);
      if |ready| == 0 {
        Stuck(tables, deps, order, emitted, remaining);
        return SortStrings(tables), false;
      }
      ready := SortStrings(ready);
      ghost var rs := ReadySet(tables, emitted, remaining);
      ReadyWithin(tables, emitted, remaining);
      SameElements(ready, Keep(tables, rs));
      assert (set t | t in ready) == rs;
      var now := MarkEmitted(emitted, ready);
      var left := Discharge(tables, now, remaining);
      Round(tables, deps, order, emitted, remaining, ready, left);
      NextRound(tables, deps, order, emitted, remaining, rounds, ready);
      rounds := rounds + [ready];
      order, emitted, remaining := order + ready, now, left;
    }
    KeepAll(tables, emitted);
    RespectedNoCycle(tables, deps, order);
    acyclic := true;
  }

  lemma ReadyWithin(tables: seq<string>, emitted: set<string>, remaining: map<string, set<string>>)
    ensures forall t :: t in ReadySet(tables, emitted, remaining) ==> t in tables
  {
  }

  lemma SameElements(a: seq<string>, b: seq<string>)
    requires multiset(a) == multiset(b)
    ensures forall t :: t in a <==> t in b
  {
    assert forall t :: t in a <==> t in multiset(a);
    assert forall t :: t in b <==> t in multiset(b);
  }

  lemma StartProgress(tables: seq<string>, deps: Deps, remaining: map<string, set<string>>)
    requires forall t :: t in tables <==> t in remaining
    requires forall t :: t in tables ==> remaining[t] == DepsOf(tables, deps, t)
    ensures Progress(tables, deps, [], {}, remaining)
  {
    hide DepsOf, Keep;
    KeepNone(tables);
  }

  lemma {:induction false} KeepNone(tables: seq<string>)
    ensures Keep(tables, {}) == []
  {
    if tables != [] {
      KeepNone(tables[1..]);
    }
  }

  lemma Stuck(tables: seq<string>, deps: Deps, order: seq<string>, emitted: set<string>,
              remaining: map<string, set<string>>)
    requires Progress(tables, deps, order, emitted, remaining) && |order| < |tables|
    requires Keep(tables, ReadySet(tables, emitted, remaining)) == []
    ensures HasCycle(tables, deps)
  {
    hide Respects, DepsOf, HasCycle, Keep;
    var u := set t | t in tables && t !in emitted;
    assert u != {} by {
      if forall t :: t in tables ==> t in emitted {
        EverythingKept(tables, emitted);
      } else {
        var t :| t in tables && t !in emitted;
        assert t in u;
      }
    }
    forall t | t in u
      ensures t in tables && DepsOf(tables, deps, t) * u != {}
    {
      assert t !in Keep(tables, ReadySet(tables, emitted, remaining));
      assert t !in ReadySet(tables, emitted, remaining);
      assert remaining[t] != {};
      var d :| d in remaining[t];
      assert d in DepsOf(tables, deps, t) && d !in emitted;
      DepsInside(tables, deps, t);
      assert d in DepsOf(tables, deps, t) * u;
    }
    StuckHasCycle(tables, deps, u);
  }

  lemma DepsInside(tables: seq<string>, deps: Deps, t: string)
    ensures forall d :: d in DepsOf(tables, deps, t) ==> d in tables
  {
  }

  lemma {:induction false} EverythingKept(tables: seq<string>, s: set<string>)
    requires forall t :: t in tables ==> t in s
    ensures Keep(tables, s) == tables
  {
    if tables != [] {
      EverythingKept(tables[1..], s);
    }
  }
}
