/** What prompting does not keep apart: placeholders that touch are one hole,
    and on PostgreSQL a marker can have a number that the statement already
    uses. */
module Collisions {
  import opened Wrappers
  import opened Text
  import opened Sqlhl
  import opened Literal
  import opened Placeholders
  import opened Markers

  // ---------- neighbours ----------

  /** A scanning step of s ends, or none has been made, at p. */
  ghost predicate StepAt(L: Lexis, s: string, p: nat)
    decreases p
  {
    p == 0 || (s != [] && Lead(L, s).len <= p && StepAt(L, s[Lead(L, s).len..], p - Lead(L, s).len))
  }

  lemma {:induction false} StepKinds(L: Lexis, s: string, p: nat)
    requires p <= |s| && StepAt(L, s, p)
    ensures Kinds(L, s[p..]) == Kinds(L, s)[p..]
    decreases p
  {
    hide Lead;
    if p == 0 {
      assert s[0..] == s;
    } else {
      var n := Lead(L, s).len;
      StepKinds(L, s[n..], p - n);
      assert s[n..][p - n..] == s[p..];
    }
  }

  /** A placeholder of the statement that is asked for: one scanning step, `?`
      or a name. */
  ghost predicate Asks(L: Lexis, sql: string, p: nat) {
    p < |sql| && StepAt(L, sql, p) && HoleStart(sql[p..]) && Lead(L, sql[p..]).kind == Placeholder
  }

  function StepEnd(L: Lexis, sql: string, p: nat): (q: nat)
    requires p < |sql|
    ensures p < q <= |sql|
  {
    p + Lead(L, sql[p..]).len
  }

  /** A run of one kind that nothing of its kind touches is a token. */
  lemma RunIsToken(toks: seq<Token>, ks: seq<Kind>, k: Kind, p: nat, q: nat)
    requires Tiles(toks, ks) && p < q <= |ks| && (forall i :: p <= i < q ==> ks[i] == k)
    requires (p > 0 ==> ks[p - 1] != k) && (q < |ks| ==> ks[q] != k)
    ensures Token(k, p, q) in toks
  {
    var i := 0;
    while toks[i].end <= p
      invariant i < |toks| && toks[i].start <= p
      decreases |toks| - i
    {
      i := i + 1;
    }
    TokenKinds(toks, ks, i);
    var t := toks[i];
    assert t.kind == ks[p] == k;
    assert t.start == p;
    assert t.end <= q;
    assert t.end == q;
  }

  lemma TokenKinds(toks: seq<Token>, ks: seq<Kind>, i: nat)
    requires Tiles(toks, ks) && i < |toks|
    ensures var t := toks[i];
            && t.end <= |ks| && (forall p :: t.start <= p < t.end ==> ks[p] == t.kind)
            && (t.end < |ks| ==> ks[t.end] != t.kind)
  {
    if toks[i].end < |ks| { assert ks[toks[i].end] == toks[i + 1].kind; }
  }

  lemma {:induction false} HolesHave(toks: seq<Token>, sql: string, t: Token)
    requires TokensIn(toks, sql) && t in toks && PromptName(t, sql).Some?
    ensures t in Holes(toks, sql)
  {
    hide PromptName;
    if t != toks[0] {
      HolesHave(toks[1..], sql, t);
    }
  }

  /** The holes are the whole runs of placeholders that start with `?` or `:`. */
  lemma HolesAre(L: Lexis, sql: string, p: nat, q: nat)
    ensures Token(Placeholder, p, q) in HolesOf(L, sql) <==> IsHole(L, sql, Kinds(L, sql), Token(Placeholder, p, q))
  {
    hide Kinds, Runs, Holes, PromptName;
    var ks := Kinds(L, sql);
    var toks, t := Runs(ks), Token(Placeholder, p, q);
    RunsTile(ks);
    TokensInside(L, sql);
    assert toks[0..] == toks;
    HolesAreHoles(L, sql, toks, 0);
    if IsHole(L, sql, ks, t) {
      RunIsToken(toks, ks, Placeholder, p, q);
      Named(sql, t);
      HolesHave(toks, sql, t);
    }
  }

  lemma Named(sql: string, t: Token)
    requires t.kind == Placeholder && t.start < t.end <= |sql| && HoleStart(sql[t.start..])
    ensures PromptName(t, sql).Some?
  {
    assert sql[t.start] == sql[t.start..][0];
  }

  /** A placeholder is a hole of its own, and so gets a prompt of its own,
      exactly when no other touches it: its neighbours are taken for a part of
      it. */
  lemma OwnHole(L: Lexis, sql: string, p: nat)
    requires Asks(L, sql, p)
    ensures var q := StepEnd(L, sql, p);
            Token(Placeholder, p, q) in HolesOf(L, sql) <==>
            (p > 0 ==> Kinds(L, sql)[p - 1] != Placeholder) && (q < |sql| ==> Lead(L, sql[q..]).kind != Placeholder)
  {
    hide Kinds, Lead, HolesOf;
    var ks, s, q := Kinds(L, sql), sql[p..], StepEnd(L, sql, p);
    StepKinds(L, sql, p);
    forall i | p <= i < q
      ensures ks[i] == Placeholder
    {
      FirstKinds(L, s, i - p);
      assert ks[p..][i - p] == ks[i];
    }
    if q < |sql| {
      FirstKinds(L, s, q - p);
      assert s[q - p..] == sql[q..] && ks[p..][q - p] == ks[q];
      FirstKinds(L, sql[q..], 0);
    }
    HolesAre(L, sql, p, q);
  }

  lemma {:induction false} RunsOne(k: Kind, n: nat)
    requires n > 0
    ensures Runs(Rep(k, n)) == [Token(k, 0, n)]
  {
    if n == 1 {
      assert Rep(k, 1) == [] + [k];
      RunsSnoc([], k);
    } else {
      RunsOne(k, n - 1);
      assert Rep(k, n) == Rep(k, n - 1) + [k];
      RunsSnoc(Rep(k, n - 1), k);
    }
  }

  lemma AllOneHole(L: Lexis, sql: string)
    requires HoleStart(sql) && Kinds(L, sql) == Rep(Placeholder, |sql|)
    ensures HolesOf(L, sql) == [Token(Placeholder, 0, |sql|)]
  {
    hide Kinds, Runs, Holes, PromptName;
    var t := Token(Placeholder, 0, |sql|);
    RunsOne(Placeholder, |sql|);
    assert sql[0..] == sql;
    Named(sql, t);
    assert [t][0..] == [t] && [t][1..] == [];
    HolesStep([t], sql, 0);
    NothingYet(sql);
  }

  /** Two question marks are asked for once; so are two names, under a name
      that neither has. */
  lemma Neighbours(L: Lexis)
    requires L.Valid()
    ensures Names(HolesOf(L, "??"), "??") == [""] && |Prompts([""])| == 1
    ensures Names(HolesOf(L, ":a:b"), ":a:b") == ["a:b"] && |Prompts(["a:b"])| == 1
  {
    hide HolesOf, Kinds;
    MarksTouch(L);
    NamesTouch(L);
    AllOneHole(L, "??");
    AllOneHole(L, ":a:b");
    var s := ":a:b";
    assert |s| == 4 && s[1..4] == s[1..] == "a:b";
    PromptsSnoc([], "");
    PromptsSnoc([], "a:b");
    assert [] + [""] == [""] && [] + ["a:b"] == ["a:b"];
  }

  lemma MarksTouch(L: Lexis)
    requires L.Valid()
    ensures Kinds(L, "??") == Rep(Placeholder, 2)
  {
    hide Kinds;
    assert '?' !in L.space && '?' !in L.IdentPart();
    assert "??" == "?" + "?" && "?" == "?" + "";
    RunUnique(L.IdentPart(), "??"[1..], 0);
    RunUnique(L.IdentPart(), "", 0);
    assert "??"[1..] == "?" && "?"[1..] == "";
    OneStep(L, "?", "?", Placeholder);
    OneStep(L, "?", "", Placeholder);
    NoKinds(L);
  }

  lemma NamesTouch(L: Lexis)
    requires L.Valid()
    ensures Kinds(L, ":a:b") == Rep(Placeholder, 4)
  {
    assert ":a:b" == ":a" + ":b" && ":b" == ":b" + "";
    NameStep(L, 'a', ":b");
    NameStep(L, 'b', "");
    hide Kinds, Lead;
    OneStep(L, ":a", ":b", Placeholder);
    OneStep(L, ":b", "", Placeholder);
    NoKinds(L);
  }

  lemma NameStep(L: Lexis, c: char, rest: string)
    requires L.Valid() && 'a' <= c <= 'z' && (rest != [] ==> rest[0] == ':')
    ensures Lead(L, [':', c] + rest) == Lexeme(Placeholder, 2)
  {
    var s := [':', c] + rest;
    assert c in L.letter && ':' !in L.space && ':' !in L.IdentPart();
    assert s[1..] == [c] + rest && s[1] == c;
    RunUnique(L.IdentPart(), [c] + rest, 1);
  }

  lemma OneStep(L: Lexis, x: string, rest: string, k: Kind)
    requires x != [] && Lead(L, x + rest) == Lexeme(k, |x|)
    ensures Kinds(L, x + rest) == Rep(k, |x|) + Kinds(L, rest)
  {
    hide Lead;
    assert (x + rest)[|x|..] == rest;
  }

  lemma NoKinds(L: Lexis)
    ensures Kinds(L, "") == []
  {
  }

  // ---------- numbers ----------

  /** x is a dollar sign and decimal digits that write n, zeros in front or not. */
  predicate Numbers(x: string, n: nat) {
    && |x| > 1 && x[0] == '$' && (forall i :: 1 <= i < |x| ==> '0' <= x[i] <= '9')
    && DigitsValue(x[1..]) == n
  }

  /** How many scanning steps of s are the parameter of that number. */
  function Uses(L: Lexis, s: string, k: nat): nat {
    if s == [] then 0
    else
      var n := Lead(L, s).len;
      (if Numbers(s[..n], k) then 1 else 0) + Uses(L, s[n..], k)
  }

  lemma UsesFirst(L: Lexis, x: string, s: string, k: nat)
    requires x != [] && Lead(L, x + s).len == |x|
    ensures Uses(L, x + s, k) == (if Numbers(x, k) then 1 else 0) + Uses(L, s, k)
  {
    hide Lead, Numbers;
    assert (x + s)[..|x|] == x && (x + s)[|x|..] == s;
  }

  /** Before a hole the steps are the same whatever stands in its place. */
  lemma {:induction false} UsesSplice(L: Lexis, a: string, t: string, u: string, k: nat)
    requires L.Valid() && Replaceable(L, a, t, u)
    ensures Uses(L, a + t, k) + Uses(L, u, k) == Uses(L, a + u, k) + Uses(L, t, k)
    decreases |a|
  {
    hide Lead, Replaceable, Uses, Numbers;
    if a == [] {
      assert a + u == u && a + t == t;
    } else {
      SpliceFirst(L, a, t, u);
      var n := Lead(L, a + t).len;
      var b := a[n..];
      UsesSplice(L, b, t, u, k);
      assert a + t == a[..n] + (b + t) && a + u == a[..n] + (b + u);
      UsesFirst(L, a[..n], b + t, k);
      UsesFirst(L, a[..n], b + u, k);
    }
  }

  /** No step of a hole starts with a dollar sign. */
  lemma {:induction false} HoleSteps(L: Lexis, s: string, n: nat, m: nat)
    requires L.Valid() && 0 < n <= |s| && s[0] in "?:@"
    requires (forall i :: 0 <= i < n ==> Kinds(L, s)[i] == Placeholder) && (n < |s| ==> Kinds(L, s)[n] != Placeholder)
    ensures Uses(L, s, m) == Uses(L, s[n..], m)
    decreases n
  {
    hide Lead, Kinds, Uses;
    var k := Lead(L, s).len;
    FirstKinds(L, s, 0);
    if n < |s| { FirstKinds(L, s, n); }
    assert k <= n;
    var r := s[k..];
    assert s == s[..k] + r;
    UsesFirst(L, s[..k], r, m);
    hide Numbers;
    if k < n {
      HoleLexeme(L, s);
      assert '$' in L.IdentPart();
      forall i | 0 <= i < n - k
        ensures Kinds(L, r)[i] == Placeholder
      {
        FirstKinds(L, s, k + i);
      }
      FirstKinds(L, r, 0);
      PlaceholderStart(L, r);
      HoleSteps(L, r, n - k, m);
      assert r[n - k..] == s[n..];
    }
  }

  lemma HoleUses(L: Lexis, sql: string, h: Token, m: nat)
    requires L.Valid() && IsHole(L, sql, Kinds(L, sql), h)
    ensures Uses(L, sql[h.start..], m) == Uses(L, sql[h.end..], m)
  {
    hide Kinds, Uses;
    var s, n := sql[h.start..], h.end - h.start;
    if h.start > 0 {
      Afresh(L, sql, h.start);
    } else {
      assert s == sql;
    }
    assert forall i :: 0 <= i < |s| ==> Kinds(L, s)[i] == Kinds(L, sql)[h.start + i];
    HoleSteps(L, s, n, m);
    assert s[n..] == sql[h.end..];
  }

  /** A marker has its own number and no other. */
  lemma MarkerNumber(j: nat, k: nat)
    ensures Numbers(Marker(EnginePostgres, j), k) <==> j == k
  {
    hide DigitsValue, Decimal;
    DecimalChars(j);
    DecimalValue(j);
    var d := Decimal(j);
    assert FormatInt(j) == d;
    assert ("$" + d)[1..] == d;
  }

  /** One hole gives way to a marker. */
  lemma MarkUsed(L: Lexis, sql: string, h: Token, last: nat, n: nat, r: string, k: nat)
    requires L.Valid() && L.d == Postgres && IsHole(L, sql, Kinds(L, sql), h) && last <= h.start
    requires Kinds(L, sql[last..]) == Kinds(L, sql)[last..] && (r != [] ==> r[0] !in L.IdentPart())
    requires !Swallows(L, sql, Kinds(L, sql), h.start)
    ensures Uses(L, sql[last..h.start] + (Marker(EnginePostgres, n) + r), k) + Uses(L, sql[h.end..], k) ==
            Uses(L, sql[last..], k) + Uses(L, r, k) + if n == k then 1 else 0
  {
    hide Kinds, Swallows, Marker, Uses, Replaceable, Numbers, IsHole;
    HoleUses(L, sql, h, k);
    HoleInside(L, sql, h);
    var e, a, t := EnginePostgres, sql[last..h.start], sql[h.start..];
    HoleReplaceable(L, e, sql, h, last, n, r);
    UsesSplice(L, a, t, Marker(e, n) + r, k);
    MarkerNumber(n, k);
    MarkerLead(L, e, n, r);
    UsesFirst(L, Marker(e, n), r, k);
    assert a + t == sql[last..];
  }

  lemma HoleInside(L: Lexis, sql: string, h: Token)
    requires IsHole(L, sql, Kinds(L, sql), h)
    ensures h.start < h.end <= |sql|
  {
  }

  /** Every marker put in is one more use of its number. */
  lemma {:induction false} MarksUsed(L: Lexis, sql: string, hs: seq<Token>, last: nat, from: nat, k: nat)
    requires L.Valid() && L.d == Postgres && AllHoles(L, sql, Kinds(L, sql), hs) && Ascending(sql, hs, last)
    requires Kinds(L, sql[last..]) == Kinds(L, sql)[last..] && Apart(L, EnginePostgres, sql, hs)
    ensures Uses(L, Woven(sql, hs, Placeholders.Markers(EnginePostgres, from, |hs|), last), k) ==
            Uses(L, sql[last..], k) + if from < k <= from + |hs| then 1 else 0
    decreases |hs|
  {
    hide Kinds, Swallows, Marker, Uses;
    if hs != [] {
      var e, h, rest := EnginePostgres, hs[0], hs[1..];
      var marks := Placeholders.Markers(e, from, |hs|);
      assert IsHole(L, sql, Kinds(L, sql), h);
      assert marks[0] == Marker(e, from + 1) && marks[1..] == Placeholders.Markers(e, from + 1, |rest|);
      AfterHole(L, sql, h);
      RestStart(L, sql, Kinds(L, sql), h, rest, marks[1..]);
      ApartFirst(L, e, sql, hs);
      var r := Woven(sql, rest, marks[1..], h.end);
      MarksUsed(L, sql, rest, h.end, from + 1, k);
      MarkUsed(L, sql, h, last, from + 1, r, k);
    }
  }

  /** On PostgreSQL the bound statement uses the number of a marker once more
      than the statement did: it stands for that one value exactly when the
      statement did not use it. */
  lemma MarkerNumbers(L: Lexis, sql: string, k: nat)
    requires L.Valid() && L.d == Postgres && Apart(L, EnginePostgres, sql, HolesOf(L, sql)) && 1 <= k <= |HolesOf(L, sql)|
    ensures var hs := HolesOf(L, sql);
            Uses(L, Woven(sql, hs, Placeholders.Markers(EnginePostgres, 0, |hs|), 0), k) == Uses(L, sql, k) + 1
  {
    hide Kinds, Runs, Apart, Uses;
    RunsTile(Kinds(L, sql));
    TokensInside(L, sql);
    var toks := Runs(Kinds(L, sql));
    HolesAreHoles(L, sql, toks, 0);
    assert toks[0..] == toks && sql[0..] == sql && Kinds(L, sql)[0..] == Kinds(L, sql);
    MarksUsed(L, sql, HolesOf(L, sql), 0, 0, k);
  }

  predicate Digits(d: string) { d != [] && forall i :: 0 <= i < |d| ==> '0' <= d[i] <= '9' }

  /** A statement that uses a number already, spelled d, and has a hole. */
  function Asking(d: string): string { "SELECT" + (" " + (("$" + d) + ", ?")) }

  /** A number that is taken: `SELECT $1, ?` and `SELECT $01, ?` have both places
      on the one value entered. */
  lemma NumberTaken(L: Lexis, d: string)
    requires L.Valid() && L.d == Postgres && Digits(d) && DigitsValue(d) == 1
    ensures var sql := Asking(d);
            var hs := HolesOf(L, sql);
            && hs == [Token(Placeholder, |sql| - 1, |sql|)]
            && var bound := Woven(sql, hs, Placeholders.Markers(EnginePostgres, 0, 1), 0);
               bound == "SELECT" + (" " + (("$" + d) + ", $1")) && Uses(L, bound, 1) == 2
  {
    hide Kinds, HolesOf, Uses, Numbers;
    var sql, n := Asking(d), |d|;
    AskingHole(L, d);
    var h := Token(Placeholder, 10 + n, 11 + n);
    assert [h][1..] == [] && sql[11 + n..] == "";
    assert sql[0..10 + n] + "$1" == "SELECT" + (" " + (("$" + d) + ", $1"));
    assert Woven(sql, [], [], 11 + n) == "";
    assert FormatInt(1) == "1";
    AskingUses(L, d);
    AskingApart(L, d);
    MarkerNumbers(L, sql, 1);
  }

  /** With a zero in front: the texts differ, the number does not. */
  lemma ZeroOneTaken(L: Lexis)
    requires L.Valid() && L.d == Postgres
    ensures var sql := "SELECT $01, ?";
            var bound := Woven(sql, HolesOf(L, sql), Placeholders.Markers(EnginePostgres, 0, |HolesOf(L, sql)|), 0);
            bound == "SELECT $01, $1" && Uses(L, sql, 1) == 1 && Uses(L, bound, 1) == 2
  {
    hide HolesOf, Uses, Woven;
    ZeroOne();
    NumberTaken(L, "01");
    AskingUses(L, "01");
  }

  lemma ZeroOne()
    ensures Digits("01") && DigitsValue("01") == 1 && Asking("01") == "SELECT $01, ?"
    ensures "SELECT" + (" " + (("$" + "01") + ", $1")) == "SELECT $01, $1"
  {
    assert "01"[..1] == "0" && "0"[..0] == "";
  }

  /** The scanning steps of the statement. */
  lemma AskingLeads(L: Lexis, d: string)
    requires L.Valid() && L.d == Postgres && Digits(d)
    ensures var rest := " " + (("$" + d) + ", ?");
            && Lead(L, "SELECT" + rest).len == 6 && Lead(L, "SELECT" + rest).kind != Placeholder
            && Lead(L, "SELECT" + rest).kind != Operator
            && Lead(L, rest) == Lexeme(Plain, 1) && Lead(L, ("$" + d) + ", ?") == Lexeme(Placeholder, 1 + |d|)
    ensures Lead(L, ", ?") == Lexeme(Operator, 1) && Lead(L, " ?") == Lexeme(Plain, 1) && Lead(L, "?") == Lexeme(Placeholder, 1)
  {
    hide Run;
    var p := ("$" + d) + ", ?";
    var rest := " " + p;
    RunUnique(L.IdentPart(), "SELECT" + rest, 6);
    RunUnique(L.space, rest, 1);
    RunUnique(L.space, " ?", 1);
    assert p[1..] == d + ", ?" && "?"[1..] == "";
    RunUnique(AsciiDigits, d + ", ?", |d|);
  }

  lemma TailParts()
    ensures ", ?" == "," + " ?" && " ?" == " " + "?" && "?" == "?" + ""
  {
  }

  lemma AskingKinds(L: Lexis, d: string)
    requires L.Valid() && L.d == Postgres && Digits(d)
    ensures var ks, n := Kinds(L, Asking(d)), |d|;
            && |ks| == |Asking(d)| == 11 + n
            && (forall i :: 0 <= i < 11 + n ==> (ks[i] == Placeholder <==> 7 <= i < 8 + n || i == 10 + n))
            && ks[9 + n] == Plain
  {
    AskingLeads(L, d);
    TailParts();
    hide Lead, Kinds;
    var w := Lead(L, Asking(d)).kind;
    OneStep(L, "SELECT", " " + (("$" + d) + ", ?"), w);
    OneStep(L, " ", ("$" + d) + ", ?", Plain);
    OneStep(L, "$" + d, ", ?", Placeholder);
    OneStep(L, ",", " ?", Operator);
    OneStep(L, " ", "?", Plain);
    OneStep(L, "?", "", Placeholder);
    NoKinds(L);
  }

  lemma AskingUses(L: Lexis, d: string)
    requires L.Valid() && L.d == Postgres && Digits(d) && DigitsValue(d) == 1
    ensures Uses(L, Asking(d), 1) == 1
  {
    AskingLeads(L, d);
    TailParts();
    hide Lead, Uses, DigitsValue;
    UsesFirst(L, "SELECT", " " + (("$" + d) + ", ?"), 1);
    UsesFirst(L, " ", ("$" + d) + ", ?", 1);
    UsesFirst(L, "$" + d, ", ?", 1);
    UsesFirst(L, ",", " ?", 1);
    UsesFirst(L, " ", "?", 1);
    UsesFirst(L, "?", "", 1);
    assert ("$" + d)[1..] == d;
    NoUses(L);
  }

  lemma NoUses(L: Lexis)
    ensures Uses(L, "", 1) == 0
  {
  }

  lemma AskingHole(L: Lexis, d: string)
    requires L.Valid() && L.d == Postgres && Digits(d)
    ensures HolesOf(L, Asking(d)) == [Token(Placeholder, 10 + |d|, 11 + |d|)]
  {
    hide HolesOf, Kinds, IsHole;
    AskingKinds(L, d);
    var s, ks, n := Asking(d), Kinds(L, Asking(d)), |d|;
    forall p: nat, q: nat | IsHole(L, s, ks, Token(Placeholder, p, q))
      ensures p == 10 + n && q == 11 + n
    {
      OnlyLast(L, s, ks, n, p, q);
    }
    LastHole(L, s, ks);
    OnlyHole(L, s, 10 + n, 11 + n);
  }

  lemma LastHole(L: Lexis, s: string, ks: seq<Kind>)
    requires |s| == |ks| > 1 && s[|s| - 1] == '?' && ks[|s| - 2] != Placeholder && ks[|s| - 1] == Placeholder
    ensures IsHole(L, s, ks, Token(Placeholder, |s| - 1, |s|))
  {
  }

  lemma OnlyLast(L: Lexis, s: string, ks: seq<Kind>, n: nat, p: nat, q: nat)
    requires |s| == |ks| == 11 + n && s[7] == '$' && forall i :: 8 <= i < 8 + n ==> '0' <= s[i] <= '9'
    requires forall i :: 0 <= i < 11 + n ==> (ks[i] == Placeholder <==> 7 <= i < 8 + n || i == 10 + n)
    requires IsHole(L, s, ks, Token(Placeholder, p, q))
    ensures p == 10 + n && q == 11 + n
  {
    assert s[p..][0] == s[p];
    assert ks[p] == Placeholder && ks[q - 1] == Placeholder;
    assert !(7 <= p < 8 + n);
  }

  lemma AskingApart(L: Lexis, d: string)
    requires L.Valid() && L.d == Postgres && Digits(d)
    ensures Apart(L, EnginePostgres, Asking(d), HolesOf(L, Asking(d)))
  {
    hide HolesOf, Kinds;
    AskingHole(L, d);
    AskingKinds(L, d);
    var s := Asking(d);
    assert s[9 + |d|] == ' ' && ' ' !in L.IdentPart();
  }

  lemma OnlyHole(L: Lexis, sql: string, p: nat, q: nat)
    requires IsHole(L, sql, Kinds(L, sql), Token(Placeholder, p, q))
    requires forall p': nat, q': nat :: IsHole(L, sql, Kinds(L, sql), Token(Placeholder, p', q')) ==> p' == p && q' == q
    ensures HolesOf(L, sql) == [Token(Placeholder, p, q)]
  {
    hide Kinds, HolesOf, IsHole;
    var hs := HolesOf(L, sql);
    HolesAre(L, sql, p, q);
    forall i | 0 <= i < |hs|
      ensures hs[i] == Token(Placeholder, p, q)
    {
      var h := hs[i];
      assert h == Token(Placeholder, h.start, h.end) && h in hs;
      HolesAre(L, sql, h.start, h.end);
    }
    if |hs| > 1 { SecondHole(sql, hs, 0); }
  }

  lemma SecondHole(sql: string, hs: seq<Token>, last: nat)
    requires |hs| > 1 && Ascending(sql, hs, last)
    ensures hs[0].start < hs[0].end <= hs[1].start
  {
    assert hs[1..][0] == hs[1];
  }
}
