/** Placeholder prompting (internal/db/placeholders.go): which holes of a
    statement are asked for, and how the entered values are bound. The holes
    become the dialect's own markers and nothing else changes; read back, the
    markers are placeholder tokens again, except on PostgreSQL where a marker
    can run into the word before it. A hole is a token, so placeholders that
    touch are one hole. */
module Placeholders {
  import opened Wrappers
  import opened Text
  import opened Sqlhl
  import opened Literal

  // ---------- prompts ----------

  /** One thing to ask for. The name is empty for a positional `?`. */
  datatype Prompt = Prompt(name: string, caption: string)

  /** promptName: the name a hole is asked for by, if it is asked for. */
  function PromptName(t: Token, sql: string): Option<string>
    requires t.start < t.end <= |sql|
  {
    if t.kind != Placeholder then None
    else if sql[t.start] == '?' then Some("")
    else if sql[t.start] == ':' then Some(sql[t.start + 1..t.end])
    else None
  }

  predicate AreHoles(sql: string, hs: seq<Token>) {
    forall i :: 0 <= i < |hs| ==> hs[i].start < hs[i].end <= |sql| && PromptName(hs[i], sql).Some?
  }

  predicate TokensIn(toks: seq<Token>, sql: string) {
    forall i :: 0 <= i < |toks| ==> toks[i].start < toks[i].end <= |sql|
  }

  /** The tokens asked for, in order. */
  function Holes(toks: seq<Token>, sql: string): (hs: seq<Token>)
    requires TokensIn(toks, sql)
    ensures AreHoles(sql, hs)
  {
    if toks == [] then [] else (if PromptName(toks[0], sql).Some? then [toks[0]] else []) + Holes(toks[1..], sql)
  }

  function Names(hs: seq<Token>, sql: string): (ns: seq<string>)
    requires AreHoles(sql, hs)
    ensures |ns| == |hs|
  {
    seq(|hs|, i requires 0 <= i < |hs| => PromptName(hs[i], sql).value)
  }

  /** How many holes of ns are positional. */
  function Positional(ns: seq<string>): (n: nat)
    ensures n <= |ns|
  {
    if ns == [] then 0 else Positional(ns[..|ns| - 1]) + if ns[|ns| - 1] == "" then 1 else 0
  }

  function PositionalLabel(n: nat): string { "? (" + FormatInt(n) + ")" }

  /** One prompt for every positional hole and one for every name. */
  function Prompts(ns: seq<string>): seq<Prompt> {
    if ns == [] then []
    else
      var less, name := ns[..|ns| - 1], ns[|ns| - 1];
      if name == "" then Prompts(less) + [Prompt("", PositionalLabel(Positional(ns)))]
      else if name in less then Prompts(less)
      else Prompts(less) + [Prompt(name, ":" + name)]
  }

  /** How many prompts of p are positional. */
  function Asked(p: seq<Prompt>): (n: nat)
    ensures n <= |p|
  {
    if p == [] then 0 else Asked(p[..|p| - 1]) + if p[|p| - 1].name == "" then 1 else 0
  }

  lemma AskedSnoc(p: seq<Prompt>, x: Prompt)
    ensures Asked(p + [x]) == Asked(p) + if x.name == "" then 1 else 0
  {
    assert (p + [x])[..|p|] == p;
  }

  /** The prompt that hole k takes its value from: the one of its name, or the
      one as far down the positional prompts as k is down the `?`s. */
  ghost predicate IsSlot(ns: seq<string>, k: nat, i: nat)
    requires k < |ns|
  {
    var p := Prompts(ns);
    i < |p| && p[i].name == ns[k] && (ns[k] == "" ==> Asked(p[..i]) == Positional(ns[..k]))
  }

  lemma {:induction false} AskedIsPositional(ns: seq<string>)
    ensures Asked(Prompts(ns)) == Positional(ns)
  {
    if ns != [] {
      var less, name := ns[..|ns| - 1], ns[|ns| - 1];
      AskedIsPositional(less);
      AskedSnoc(Prompts(less), Prompt("", PositionalLabel(Positional(ns))));
      AskedSnoc(Prompts(less), Prompt(name, ":" + name));
    }
  }

  /** A slot stays a slot when more holes follow. */
  lemma SlotStays(ns: seq<string>, name: string, k: nat, i: nat)
    requires k < |ns| && IsSlot(ns, k, i)
    ensures IsSlot(ns + [name], k, i)
  {
    hide Asked, Positional;
    var more := ns + [name];
    assert more[..|ns|] == ns && more[..k] == ns[..k];
    assert Prompts(more)[..i] == Prompts(ns)[..i];
  }

  lemma NewSlot(ns: seq<string>, name: string)
    requires name == "" || name !in ns
    ensures IsSlot(ns + [name], |ns|, |Prompts(ns)|)
  {
    hide Asked, Positional;
    var more := ns + [name];
    assert more[..|ns|] == ns;
    AskedIsPositional(ns);
    assert Prompts(more)[..|Prompts(ns)|] == Prompts(ns);
  }

  /** Every hole has a prompt to take its value from, ... */
  lemma {:induction false} SlotExists(ns: seq<string>, k: nat)
    requires k < |ns|
    ensures exists i :: IsSlot(ns, k, i)
  {
    hide Prompts, IsSlot;
    var n := |ns| - 1;
    var less, name := ns[..n], ns[n];
    assert less + [name] == ns;
    if k < n {
      SlotExists(less, k);
      var i :| IsSlot(less, k, i);
      SlotStays(less, name, k, i);
    } else if name == "" || name !in less {
      NewSlot(less, name);
    } else {
      var j :| 0 <= j < n && less[j] == name;
      SlotExists(less, j);
      var i :| IsSlot(less, j, i);
      SlotStays(less, name, j, i);
      NamedSlot(ns, j, n, i);
    }
  }

  lemma NamedSlot(ns: seq<string>, j: nat, k: nat, i: nat)
    requires j < |ns| && k < |ns| && IsSlot(ns, j, i) && ns[j] == ns[k] != ""
    ensures IsSlot(ns, k, i)
  {
    hide Prompts, Asked, Positional;
  }

  /** ... and every prompt is some hole's. */
  lemma {:induction false} SlotsUsed(ns: seq<string>, i: nat)
    requires i < |Prompts(ns)|
    ensures exists k :: 0 <= k < |ns| && IsSlot(ns, k, i)
  {
    hide IsSlot, Asked, Positional;
    if ns != [] {
      var n := |ns| - 1;
      var less, name := ns[..n], ns[n];
      assert less + [name] == ns;
      if i < |Prompts(less)| {
        SlotsUsed(less, i);
        var k :| 0 <= k < |less| && IsSlot(less, k, i);
        SlotStays(less, name, k, i);
      } else {
        NewSlot(less, name);
      }
    }
  }

  lemma {:induction false} NamedOnce(ns: seq<string>, i: nat, j: nat)
    requires i < j < |Prompts(ns)| && Prompts(ns)[i].name == Prompts(ns)[j].name
    ensures Prompts(ns)[i].name == ""
  {
    if ns != [] {
      var less := ns[..|ns| - 1];
      if j < |Prompts(less)| {
        NamedOnce(less, i, j);
      } else {
        NamesInside(less, i);
      }
    }
  }

  lemma {:induction false} NamesInside(ns: seq<string>, i: nat)
    requires i < |Prompts(ns)|
    ensures Prompts(ns)[i].name == "" || Prompts(ns)[i].name in ns
  {
    if ns != [] {
      var less := ns[..|ns| - 1];
      assert less + [ns[|ns| - 1]] == ns;
      if i < |Prompts(less)| { NamesInside(less, i); }
    }
  }

  lemma {:induction false} AskedGrows(p: seq<Prompt>, i: nat, j: nat)
    requires i < j <= |p|
    ensures Asked(p[..i]) + (if p[i].name == "" then 1 else 0) <= Asked(p[..j])
    decreases j
  {
    assert p[..j][..j - 1] == p[..j - 1];
    if i < j - 1 {
      AskedGrows(p, i, j - 1);
    }
  }

  lemma SlotUnique(ns: seq<string>, k: nat, i: nat, j: nat)
    requires k < |ns| && IsSlot(ns, k, i) && IsSlot(ns, k, j)
    ensures i == j
  {
    hide Prompts, Asked, Positional;
    var lo, hi := if i < j then i else j, if i < j then j else i;
    if lo < hi {
      NamedOnce(ns, lo, hi);
      AskedGrows(Prompts(ns), lo, hi);
    }
  }

  lemma {:induction false} PositionalGrows(ns: seq<string>, j: nat, k: nat)
    requires j < k <= |ns|
    ensures Positional(ns[..j]) + (if ns[j] == "" then 1 else 0) <= Positional(ns[..k])
    decreases k
  {
    assert ns[..k][..k - 1] == ns[..k - 1];
    if j < k - 1 {
      PositionalGrows(ns, j, k - 1);
    }
  }

  /** Two holes take the same value exactly when they have one name; a
      positional value goes to one hole only. */
  lemma SlotsShared(ns: seq<string>, j: nat, k: nat, i: nat)
    requires j < |ns| && k < |ns| && IsSlot(ns, j, i)
    ensures IsSlot(ns, k, i) <==> ns[j] == ns[k] && (ns[j] == "" ==> j == k)
  {
    hide Prompts, Asked, Positional;
    var lo, hi := if j < k then j else k, if j < k then k else j;
    if lo < hi {
      PositionalGrows(ns, lo, hi);
    }
  }

  /** ExtractPlaceholders. */
  method ExtractPlaceholders(L: Lexis, sql: string) returns (out: seq<Prompt>)
    ensures TokensIn(Runs(Kinds(L, sql)), sql)
    ensures out == Prompts(Names(Holes(Runs(Kinds(L, sql)), sql), sql))
  {
    hide Runs, Kinds, Positional, Prompts, PositionalLabel, Holes, Names, PromptName;
    var toks := Tokenize(L, sql);
    TokensInside(L, sql);
    var seen: set<string> := {};
    var positional := 0;
    ghost var ns: seq<string> := [];
    ghost var all := Names(Holes(toks, sql), sql);
    out := [];
    assert toks[0..] == toks && [] + all == all;
    NothingYet(sql);
    for i := 0 to |toks|
      invariant out == Prompts(ns) && positional == Positional(ns)
      invariant forall n :: n in seen <==> n in ns && n != ""
      invariant ns + Names(Holes(toks[i..], sql), sql) == all
    {
      var t := toks[i];
      var name := PromptName(t, sql);
      HolesStep(toks, sql, i);
      if name.Some? {
        var n := name.value;
        PromptsSnoc(ns, n);
        ghost var more, rest := ns + [n], Names(Holes(toks[i + 1..], sql), sql);
        assert ns + ([n] + rest) == more + rest;
        if n == "" {
          positional := positional + 1;
          out := out + [Prompt("", PositionalLabel(positional))];
        } else if n !in seen {
          seen := seen + {n};
          out := out + [Prompt(n, ":" + n)];
        }
        ns := more;
      } else {
        assert [] + Names(Holes(toks[i + 1..], sql), sql) == Names(Holes(toks[i + 1..], sql), sql);
      }
    }
    assert toks[|toks|..] == [] && ns + [] == ns;
  }

  lemma TokensInside(L: Lexis, sql: string)
    ensures TokensIn(Runs(Kinds(L, sql)), sql)
  {
    hide Runs, Kinds;
    RunsTile(Kinds(L, sql));
  }

  lemma NothingYet(sql: string)
    ensures Positional([]) == 0 && Prompts([]) == [] && Holes([], sql) == [] && Names([], sql) == []
  {
  }

  lemma HolesStep(toks: seq<Token>, sql: string, i: nat)
    requires i < |toks| && TokensIn(toks, sql)
    ensures var rest := Holes(toks[i + 1..], sql);
            Holes(toks[i..], sql) == (if PromptName(toks[i], sql).Some? then [toks[i]] else []) + rest
    ensures var rest := Holes(toks[i + 1..], sql);
            Names(Holes(toks[i..], sql), sql) ==
            (if PromptName(toks[i], sql).Some? then [PromptName(toks[i], sql).value] else []) + Names(rest, sql)
  {
    hide PromptName;
    assert toks[i..][1..] == toks[i + 1..];
  }

  lemma PromptsSnoc(ns: seq<string>, n: string)
    ensures Prompts(ns + [n]) ==
            if n == "" then Prompts(ns) + [Prompt("", PositionalLabel(Positional(ns) + 1))]
            else if n in ns then Prompts(ns)
            else Prompts(ns) + [Prompt(n, ":" + n)]
    ensures Positional(ns + [n]) == Positional(ns) + if n == "" then 1 else 0
  {
    assert (ns + [n])[..|ns|] == ns;
  }

  // ---------- binding ----------

  /** An entered value; NULL wins over the text. */
  datatype ParamValue = ParamValue(text: string, isNull: bool) {
    function Arg(): Option<string> { if isNull then None else Some(text) }
  }

  datatype Binding = Mismatch(values: nat, placeholders: nat) | Bound(sql: string, args: seq<Option<string>>)

  /** Dialect.Placeholder. */
  function Marker(e: Engine, n: nat): string {
    if e == EnginePostgres then "$" + FormatInt(n) else "?"
  }

  /** The markers numbered from `from` + 1. */
  function Markers(e: Engine, from: nat, n: nat): (r: seq<string>)
    ensures |r| == n
  {
    seq(n, i requires 0 <= i < n => Marker(e, from + i + 1))
  }

  /** The holes come in order. */
  ghost predicate Ascending(sql: string, hs: seq<Token>, last: nat) {
    if hs == [] then last <= |sql|
    else last <= hs[0].start < hs[0].end <= |sql| && Ascending(sql, hs[1..], hs[0].end)
  }

  /** sql[last..] with the holes replaced by the fills and nothing else changed. */
  function Woven(sql: string, hs: seq<Token>, fills: seq<string>, last: nat): string
    requires |fills| == |hs| && Ascending(sql, hs, last)
  {
    if hs == [] then sql[last..]
    else sql[last..hs[0].start] + (fills[0] + Woven(sql, hs[1..], fills[1..], hs[0].end))
  }

  function Texts(sql: string, hs: seq<Token>): (r: seq<string>)
    requires forall i :: 0 <= i < |hs| ==> hs[i].start < hs[i].end <= |sql|
    ensures |r| == |hs|
  {
    seq(|hs|, i requires 0 <= i < |hs| => hs[i].Text(sql))
  }

  /** Filled with their own texts, the holes give back the statement. */
  lemma {:induction false} WovenOwn(sql: string, hs: seq<Token>, last: nat)
    requires Ascending(sql, hs, last) && forall i :: 0 <= i < |hs| ==> hs[i].start < hs[i].end <= |sql|
    ensures Woven(sql, hs, Texts(sql, hs), last) == sql[last..]
  {
    if hs != [] {
      var h := hs[0];
      assert Texts(sql, hs)[1..] == Texts(sql, hs[1..]);
      WovenOwn(sql, hs[1..], h.end);
      assert sql[last..] == sql[last..h.start] + (sql[h.start..h.end] + sql[h.end..]);
    }
  }

  lemma {:induction false} HolesAscend(toks: seq<Token>, sql: string, last: nat)
    requires TokensIn(toks, sql) && last <= |sql|
    requires toks != [] ==> last <= toks[0].start
    requires forall i :: 0 <= i < |toks| - 1 ==> toks[i].end == toks[i + 1].start
    ensures Ascending(sql, Holes(toks, sql), last)
  {
    hide PromptName;
    if toks != [] {
      var t := toks[0];
      if PromptName(t, sql).Some? {
        HolesAscend(toks[1..], sql, t.end);
        assert Holes(toks, sql)[1..] == Holes(toks[1..], sql);
      } else {
        HolesAscend(toks[1..], sql, last);
        assert Holes(toks, sql) == Holes(toks[1..], sql);
      }
    }
  }

  /** The holes of a statement. */
  ghost function HolesOf(L: Lexis, sql: string): (hs: seq<Token>)
    ensures Ascending(sql, hs, 0) && AreHoles(sql, hs)
  {
    TokensInside(L, sql);
    RunsTile(Kinds(L, sql));
    HolesAscend(Runs(Kinds(L, sql)), sql, 0);
    Holes(Runs(Kinds(L, sql)), sql)
  }

  /** positionalIndex: the prompt with n positional ones before it. */
  method PositionalIndex(phs: seq<Prompt>, n: nat) returns (i: nat)
    ensures if n < Asked(phs) then i < |phs| && phs[i].name == "" && Asked(phs[..i]) == n else i == 0
  {
    hide Asked;
    var seen := 0;
    AskedNone();
    for j := 0 to |phs|
      invariant seen == Asked(phs[..j]) <= n
    {
      assert phs[..j + 1] == phs[..j] + [phs[j]];
      AskedSnoc(phs[..j], phs[j]);
      if phs[j].name == "" {
        if seen == n {
          AskedGrows(phs, j, |phs|);
          assert phs[..|phs|] == phs;
          return j;
        }
        seen := seen + 1;
      }
    }
    assert phs[..|phs|] == phs;
    return 0;
  }

  lemma AskedNone()
    ensures Asked([]) == 0
  {
  }

  /** The values by name, as BindPlaceholders collects them. */
  method ByName(phs: seq<Prompt>, values: seq<ParamValue>) returns (byName: map<string, ParamValue>)
    requires |values| == |phs|
    requires forall i, j :: 0 <= i < j < |phs| && phs[i].name == phs[j].name ==> phs[i].name == ""
    ensures forall i :: 0 <= i < |phs| && phs[i].name != "" ==> phs[i].name in byName && byName[phs[i].name] == values[i]
  {
    byName := map[];
    for i := 0 to |phs|
      invariant forall j :: 0 <= j < i && phs[j].name != "" ==> phs[j].name in byName && byName[phs[j].name] == values[j]
    {
      if phs[i].name != "" {
        byName := byName[phs[i].name := values[i]];
      }
    }
  }

  /** The value for hole k: what its slot holds. */
  method ValueFor(ghost ns: seq<string>, ghost k: nat, name: string, positional: nat, phs: seq<Prompt>,
                  values: seq<ParamValue>, byName: map<string, ParamValue>) returns (v: ParamValue)
    requires k < |ns| && phs == Prompts(ns) && |values| == |phs| && name == ns[k] && positional == Positional(ns[..k])
    requires forall i :: 0 <= i < |phs| && phs[i].name != "" ==> phs[i].name in byName && byName[phs[i].name] == values[i]
    ensures forall i: nat :: IsSlot(ns, k, i) ==> v == values[i]
  {
    hide Prompts, Positional, Asked;
    SlotExists(ns, k);
    ghost var i: nat :| IsSlot(ns, k, i);
    forall j: nat | IsSlot(ns, k, j)
      ensures j == i
    {
      SlotUnique(ns, k, i, j);
    }
    if name == "" {
      AskedGrows(phs, i, |phs|);
      assert phs[..|phs|] == phs;
      var s := PositionalIndex(phs, positional);
      assert positional == Asked(phs[..i]) < Asked(phs);
      assert IsSlot(ns, k, s);
      assert s == i;
      return values[s];
    }
    assert phs[i].name == name;
    return byName[name];
  }

  /** BindPlaceholders: every hole becomes a marker, every marker gets the value
      of its hole's slot, and the rest of the text is left alone. */
  method BindPlaceholders(L: Lexis, e: Engine, sql: string, values: seq<ParamValue>) returns (r: Binding)
    ensures var hs := HolesOf(L, sql);
            var ns := Names(hs, sql);
            var phs := Prompts(ns);
            if |values| != |phs| then r == Mismatch(|values|, |phs|)
            else
              && r.Bound? && |r.args| == |hs|
              && r.sql == Woven(sql, hs, Markers(e, 0, |hs|), 0)
              && (forall k: nat, i: nat :: k < |hs| && IsSlot(ns, k, i) ==> r.args[k] == values[i].Arg())
  {
    hide Runs, Kinds, Prompts, Positional, Holes, Names, PromptName, Asked, Marker, Woven, BindState, IsSlot,
      Ascending, AreHoles, KindsAgree;
    var phs := ExtractPlaceholders(L, sql);
    if |values| != |phs| {
      return Mismatch(|values|, |phs|);
    }
    ghost var hs := HolesOf(L, sql);
    ghost var ns := Names(hs, sql);
    forall i, j | 0 <= i < j < |phs| && phs[i].name == phs[j].name
      ensures phs[i].name == ""
    {
      NamedOnce(ns, i, j);
    }
    var byName := ByName(phs, values);
    var toks := Tokenize(L, sql);
    TokensInside(L, sql);
    RunsTile(Kinds(L, sql));
    var b := "";
    var args: seq<Option<string>> := [];
    var positional: nat, last: nat := 0, 0;
    assert toks[0..] == toks && hs == Holes(toks, sql);
    BindStart(e, sql, hs, values);
    hide HolesOf;
    for i := 0 to |toks|
      invariant last <= |sql| && (i < |toks| ==> last <= toks[i].start)
      invariant BindState(e, sql, hs, Holes(toks[i..], sql), values, b, args, positional, last)
    {
      var t := toks[i];
      var name := PromptName(t, sql);
      HolesStep(toks, sql, i);
      ghost var rest := Holes(toks[i + 1..], sql);
      if name.Some? {
        ghost var k := |args|;
        BoundSoFar(e, sql, hs, t, rest, values, b, args, positional, last);
        var v := ValueFor(ns, k, name.value, positional, phs, values, byName);
        BindStep(e, sql, hs, t, rest, values, b, args, positional, last, v);
        if name.value == "" {
          positional := positional + 1;
        }
        args := args + [v.Arg()];
        b := b + sql[last..t.start];
        b := b + Marker(e, |args|);
        last := t.end;
      } else {
        assert [] + rest == rest;
      }
    }
    assert toks[|toks|..] == [];
    NothingYet(sql);
    BindEnd(e, sql, hs, values, b, args, positional, last);
    b := b + sql[last..];
    return Bound(b, args);
  }

  /** The loop of BindPlaceholders: b is the statement up to `last` with the
      holes so far bound, and `rest` are the holes to come. */
  ghost predicate BindState(e: Engine, sql: string, hs: seq<Token>, rest: seq<Token>, values: seq<ParamValue>,
                            b: string, args: seq<Option<string>>, positional: nat, last: nat)
    requires AreHoles(sql, hs) && Ascending(sql, hs, 0) && |values| == |Prompts(Names(hs, sql))|
  {
    var ns := Names(hs, sql);
    && |args| <= |hs| && hs[|args|..] == rest
    && Ascending(sql, rest, last)
    && b + Woven(sql, rest, Markers(e, |args|, |rest|), last) == Woven(sql, hs, Markers(e, 0, |hs|), 0)
    && positional == Positional(ns[..|args|])
    && (forall k: nat, j: nat :: k < |args| && IsSlot(ns, k, j) ==> args[k] == values[j].Arg())
  }

  lemma BindStart(e: Engine, sql: string, hs: seq<Token>, values: seq<ParamValue>)
    requires AreHoles(sql, hs) && Ascending(sql, hs, 0) && |values| == |Prompts(Names(hs, sql))|
    ensures BindState(e, sql, hs, hs, values, "", [], 0, 0)
  {
    hide Woven, Names, Marker;
    assert hs[0..] == hs && Names(hs, sql)[..0] == [];
    NothingYet(sql);
  }

  lemma BoundSoFar(e: Engine, sql: string, hs: seq<Token>, t: Token, rest: seq<Token>, values: seq<ParamValue>,
                   b: string, args: seq<Option<string>>, positional: nat, last: nat)
    requires AreHoles(sql, hs) && Ascending(sql, hs, 0) && |values| == |Prompts(Names(hs, sql))|
    requires BindState(e, sql, hs, [t] + rest, values, b, args, positional, last)
    ensures var ns := Names(hs, sql);
            |args| < |ns| && hs[|args|] == t && t.start < t.end <= |sql| && PromptName(t, sql) == Some(ns[|args|])
            && positional == Positional(ns[..|args|])
  {
    hide Woven, PromptName;
    HoleNext(sql, hs, |args|, t, rest);
    NameAt(sql, hs, |args|);
  }

  lemma BindStep(e: Engine, sql: string, hs: seq<Token>, t: Token, rest: seq<Token>, values: seq<ParamValue>,
                 b: string, args: seq<Option<string>>, positional: nat, last: nat, v: ParamValue)
    requires AreHoles(sql, hs) && Ascending(sql, hs, 0) && |values| == |Prompts(Names(hs, sql))|
    requires BindState(e, sql, hs, [t] + rest, values, b, args, positional, last)
    requires |args| < |hs| && forall i: nat :: IsSlot(Names(hs, sql), |args|, i) ==> v == values[i]
    ensures last <= t.start < t.end <= |sql|
    ensures BindState(e, sql, hs, rest, values, (b + sql[last..t.start]) + Marker(e, |args| + 1), args + [v.Arg()],
                      positional + (if Names(hs, sql)[|args|] == "" then 1 else 0), t.end)
  {
    hide Woven, Names, Marker, Positional, Asked, Prompts, PromptName;
    var k := |args|;
    HoleNext(sql, hs, k, t, rest);
    PositionalStep(Names(hs, sql), k);
    WovenStep(sql, hs, k, e, last, b);
    assert |hs[k..]| == |hs| - k && |rest| == |hs| - (k + 1);
  }

  lemma BindEnd(e: Engine, sql: string, hs: seq<Token>, values: seq<ParamValue>,
                b: string, args: seq<Option<string>>, positional: nat, last: nat)
    requires AreHoles(sql, hs) && Ascending(sql, hs, 0) && |values| == |Prompts(Names(hs, sql))|
    requires BindState(e, sql, hs, [], values, b, args, positional, last) && last <= |sql|
    ensures |args| == |hs| && b + sql[last..] == Woven(sql, hs, Markers(e, 0, |hs|), 0)
    ensures forall k: nat, i: nat :: k < |hs| && IsSlot(Names(hs, sql), k, i) ==> args[k] == values[i].Arg()
  {
    hide Names, Marker, Positional, Asked, Prompts;
    assert |hs[|args|..]| == 0;
    assert Woven(sql, [], [], last) == sql[last..];
    assert Markers(e, |args|, 0) == [];
  }

  lemma NameAt(sql: string, hs: seq<Token>, k: nat)
    requires AreHoles(sql, hs)
    requires k < |hs|
    ensures Names(hs, sql)[k] == PromptName(hs[k], sql).value
  {
  }

  lemma HoleNext(sql: string, hs: seq<Token>, k: nat, t: Token, rest: seq<Token>)
    requires k <= |hs| && hs[k..] == [t] + rest
    ensures k < |hs| && hs[k] == t && hs[k + 1..] == rest
  {
    assert |hs[k..]| == 1 + |rest|;
    assert hs[k] == hs[k..][0];
    assert hs[k + 1..] == hs[k..][1..];
  }

  lemma PositionalStep(ns: seq<string>, k: nat)
    requires k < |ns|
    ensures Positional(ns[..k + 1]) == Positional(ns[..k]) + if ns[k] == "" then 1 else 0
  {
    assert ns[..k + 1][..k] == ns[..k];
  }

  lemma WovenStep(sql: string, hs: seq<Token>, k: nat, e: Engine, last: nat, b: string)
    requires k < |hs| && Ascending(sql, hs[k..], last)
    ensures Ascending(sql, hs[k + 1..], hs[k].end) && last <= hs[k].start < hs[k].end <= |sql|
    ensures b + Woven(sql, hs[k..], Markers(e, k, |hs| - k), last) ==
            ((b + sql[last..hs[k].start]) + Marker(e, k + 1)) + Woven(sql, hs[k + 1..], Markers(e, k + 1, |hs| - (k + 1)), hs[k].end)
  {
    hide Marker;
    assert hs[k..][1..] == hs[k + 1..] && hs[k..][0] == hs[k];
    assert Markers(e, k, |hs| - k)[1..] == Markers(e, k + 1, |hs| - (k + 1));
    var w := Woven(sql, hs[k + 1..], Markers(e, k + 1, |hs| - (k + 1)), hs[k].end);
    assert b + (sql[last..hs[k].start] + (Marker(e, k + 1) + w)) == ((b + sql[last..hs[k].start]) + Marker(e, k + 1)) + w;
  }
}
