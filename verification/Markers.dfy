/** Reading back what BindPlaceholders wrote: every marker is a placeholder
    token and every other character keeps its kind. On PostgreSQL, whose marker
    starts with a dollar sign, that holds exactly when no hole directly follows
    a word or what could be the tag of a dollar quote. */
module Markers {
  import opened Wrappers
  import opened Text
  import opened Sqlhl
  import opened Literal
  import opened Placeholders

  // ---------- lexemes and kinds ----------

  lemma FirstKinds(L: Lexis, s: string, p: nat)
    requires p < |s|
    ensures var x := Lead(L, s);
            Kinds(L, s)[p] == if p < x.len then x.kind else Kinds(L, s[x.len..])[p - x.len]
  {
    hide Lead;
  }

  /** A change of kind is an end of a lexeme. */
  lemma LeadInside(L: Lexis, s: string, p: nat)
    requires 0 < p < |s| && Kinds(L, s)[p - 1] != Kinds(L, s)[p]
    ensures Lead(L, s).len <= p
  {
    hide Lead, Kinds;
    FirstKinds(L, s, p - 1);
    FirstKinds(L, s, p);
  }

  /** Where the kind changes, scanning starts afresh. */
  lemma {:induction false} Afresh(L: Lexis, s: string, p: nat)
    requires 0 < p < |s| && Kinds(L, s)[p - 1] != Kinds(L, s)[p]
    ensures Kinds(L, s[p..]) == Kinds(L, s)[p..]
    decreases p
  {
    hide Lead;
    LeadInside(L, s, p);
    var n := Lead(L, s).len;
    if n < p {
      var r := s[n..];
      assert Kinds(L, s)[p - 1] == Kinds(L, r)[p - n - 1] && Kinds(L, s)[p] == Kinds(L, r)[p - n];
      Afresh(L, r, p - n);
      assert r[p - n..] == s[p..];
      assert Kinds(L, s)[p..] == Kinds(L, r)[p - n..];
    }
  }

  predicate IsWord(k: Kind) { k == Ident || k == Keyword }

  lemma WordEnds(L: Lexis, s: string)
    requires s != [] && IsWord(Lead(L, s).kind)
    ensures Lead(L, s).len < |s| ==> s[Lead(L, s).len] !in L.IdentPart()
  {
    hide DollarLead, HoleLead, NumberLen, QuotedBody, BlockBody, IndexOrEnd;
    assert s[0] == '$' ==> !IsWord(DollarLead(L, s).kind) by { DollarKind(L, s); }
    assert s[0] in "?:@" ==> !IsWord(HoleLead(L, s).kind) by { HoleKind(L, s); }
  }

  lemma DollarKind(L: Lexis, s: string)
    ensures s != [] && s[0] == '$' ==> DollarLead(L, s).kind in {Operator, Placeholder, String}
  {
  }

  lemma HoleKind(L: Lexis, s: string)
    ensures s != [] && s[0] in "?:@" ==> HoleLead(L, s).kind in {Operator, Placeholder}
  {
  }

  /** A word takes every identifier character after it. */
  lemma {:induction false} WordGoesOn(L: Lexis, s: string, p: nat)
    requires 0 < p < |s| && IsWord(Kinds(L, s)[p - 1]) && s[p] in L.IdentPart()
    ensures Kinds(L, s)[p] == Kinds(L, s)[p - 1]
    decreases p
  {
    hide Lead, Kinds;
    var n := Lead(L, s).len;
    FirstKinds(L, s, p - 1);
    FirstKinds(L, s, p);
    if n < p {
      WordGoesOn(L, s[n..], p - n);
    } else if n == p {
      WordEnds(L, s);
    }
  }

  /** s[q..p] is a dollar sign and what could be a tag. */
  predicate TagFrom(L: Lexis, s: string, q: nat, p: nat)
    requires p <= |s|
  {
    q < p && s[q] == '$' && forall i :: q < i < p ==> s[i] in L.IdentPart() - {'$'}
  }

  lemma OperatorShort(L: Lexis, s: string)
    requires s != [] && Lead(L, s).kind == Operator
    ensures Lead(L, s).len == 1 || (Lead(L, s).len == 2 && |s| > 1 && s[1] == ':')
  {
    hide NumberLen, QuotedBody, BlockBody, IndexOrEnd, TagBody, Run;
  }

  lemma DollarStarts(L: Lexis, s: string, p: nat)
    requires L.Valid() && L.Dollars() && 0 < p < |s| && TagFrom(L, s, 0, p) && s[p] == '$'
    ensures Lead(L, s).kind != Operator
  {
    hide TagBody;
    assert '$' !in L.space;
    if !DigitAt(s, 1) {
      var cs, r := L.IdentPart() - {'$'}, s[1..];
      assert forall i :: 0 <= i < p - 1 ==> r[i] == s[i + 1];
      RunUnique(cs, r, p - 1);
    }
  }

  /** A second dollar sign makes a tag of what is between. */
  lemma {:induction false} DollarOpens(L: Lexis, s: string, q: nat, p: nat)
    requires L.Valid() && L.Dollars() && p < |s| && TagFrom(L, s, q, p) && s[p] == '$'
    ensures Kinds(L, s)[q] != Operator
    decreases q
  {
    hide Lead, Kinds;
    var x := Lead(L, s);
    FirstKinds(L, s, q);
    if q == 0 {
      DollarStarts(L, s, p);
    } else if q < x.len {
      if x.kind == Operator { OperatorShort(L, s); }
    } else {
      var r := s[x.len..];
      assert forall i :: q < i < p ==> r[i - x.len] == s[i];
      assert TagFrom(L, r, q - x.len, p - x.len);
      DollarOpens(L, r, q - x.len, p - x.len);
    }
  }

  // ---------- another text after the same one ----------

  /** What is left of a ends the way a dollar sign would join on to. */
  predicate Joins(L: Lexis, a: string, x: Lexeme)
    requires a != []
  {
    (IsWord(x.kind) && x.len == |a|) || (x.kind == Operator && TagFrom(L, a, 0, |a|))
  }

  predicate HoleStart(t: string) { t != [] && (t[0] == '?' || t[0] == ':') }
  predicate MarkStart(t: string) { t != [] && (t[0] == '?' || t[0] == '$') }

  lemma NumberSplice(L: Lexis, a: string, t: string, u: string)
    requires L.Valid() && a != [] && HoleStart(t) && MarkStart(u)
    ensures NumberLen(a + t) == NumberLen(a + u)
  {
    hide Run, ExponentEnd, FractionEnd;
    var d := Run(AsciiDigits, a);
    RunStops(AsciiDigits, a, t);
    RunStops(AsciiDigits, a, u);
    if |a| > 1 {
      assert (a + t)[2..] == a[2..] + t && (a + u)[2..] == a[2..] + u;
      RunStops(HexDigits, a[2..], t);
      RunStops(HexDigits, a[2..], u);
    }
    FractionSplice(a, t, u, d);
    ExponentSplice(a, t, u, FractionEnd(a, d));
  }

  lemma FractionSplice(a: string, t: string, u: string, p: nat)
    requires p <= |a| && HoleStart(t) && MarkStart(u)
    ensures FractionEnd(a + t, p) == FractionEnd(a + u, p) == FractionEnd(a, p)
  {
    hide Run;
    if p < |a| {
      assert (a + t)[p + 1..] == a[p + 1..] + t && (a + u)[p + 1..] == a[p + 1..] + u;
      RunStops(AsciiDigits, a[p + 1..], t);
      RunStops(AsciiDigits, a[p + 1..], u);
    }
  }

  lemma ExponentSplice(a: string, t: string, u: string, p: nat)
    requires p <= |a| && HoleStart(t) && MarkStart(u)
    ensures ExponentEnd(a + t, p) == ExponentEnd(a + u, p)
  {
    hide Run;
    if p < |a| {
      var signed := p + 1 < |a| && (a[p + 1] == '+' || a[p + 1] == '-');
      DigitsSplice(a, t, u, if signed then p + 2 else p + 1);
    }
  }

  lemma DigitsSplice(a: string, t: string, u: string, k: nat)
    requires k <= |a| && HoleStart(t) && MarkStart(u)
    ensures Run(AsciiDigits, (a + t)[k..]) == Run(AsciiDigits, (a + u)[k..])
    ensures DigitAt(a + t, k) <==> DigitAt(a + u, k)
  {
    hide Run;
    assert (a + t)[k..] == a[k..] + t && (a + u)[k..] == a[k..] + u;
    RunStops(AsciiDigits, a[k..], t);
    RunStops(AsciiDigits, a[k..], u);
  }

  lemma WordSplice(L: Lexis, a: string, t: string, u: string)
    requires L.Valid() && a != [] && L.IdentStart(a[0]) && HoleStart(t) && MarkStart(u)
    requires WordLead(L, a + t).len <= |a|
    requires u[0] == '$' ==> !Joins(L, a, WordLead(L, a + t))
    ensures WordLead(L, a + u) == WordLead(L, a + t)
  {
    hide QuotedBody, Run;
    var end := Run(L.IdentPart(), a);
    assert t[0] !in L.IdentPart();
    RunStops(L.IdentPart(), a, t);
    if end == |a| {
      assert u[0] == '?';
      assert u[0] !in L.IdentPart();
      RunStops(L.IdentPart(), a, u);
    } else {
      RunUnique(L.IdentPart(), a + u, end);
      assert (a + t)[..end] == a[..end] == (a + u)[..end];
      var b := a[end + 1..];
      assert (a + t)[end + 1..] == b + t && (a + u)[end + 1..] == b + u;
      if a[end] == '\'' && IsStringPrefix(L, a[..end]) {
        QuotedBodyCloses(b, t, u, '\'', a[0] in L.escaping);
      }
    }
  }

  lemma DollarSplice(L: Lexis, a: string, t: string, u: string)
    requires L.Valid() && a != [] && a[0] == '$' && HoleStart(t) && MarkStart(u)
    requires DollarLead(L, a + t).len <= |a|
    requires u[0] == '$' ==> !Joins(L, a, DollarLead(L, a + t))
    ensures DollarLead(L, a + u) == DollarLead(L, a + t)
  {
    hide TagBody, Run;
    var b := a[1..];
    assert (a + t)[1..] == b + t && (a + u)[1..] == b + u;
    assert |a| > 1 ==> (a + t)[1] == a[1] == (a + u)[1];
    if L.Dollars() {
      DollarRuns(L, b, t, u);
      var n := Run(L.IdentPart() - {'$'}, b);
      if n == |b| {
        assert forall i :: 0 < i < |a| ==> a[i] == b[i - 1];
        assert (a + t)[1 + n] == t[0] && (a + u)[1 + n] == u[0];
      } else if !DigitAt(a, 1) {
        TagSplice(a, t, u, n + 1);
      }
    }
  }

  lemma DollarRuns(L: Lexis, b: string, t: string, u: string)
    requires L.Valid() && HoleStart(t) && MarkStart(u)
    ensures Run(AsciiDigits, b + t) == Run(AsciiDigits, b + u)
    ensures var cs := L.IdentPart() - {'$'}; Run(cs, b + t) == Run(cs, b) == Run(cs, b + u)
  {
    hide Run;
    var cs := L.IdentPart() - {'$'};
    RunStops(AsciiDigits, b, t);
    RunStops(AsciiDigits, b, u);
    assert t[0] !in cs && u[0] !in cs;
    RunStops(cs, b, t);
    RunStops(cs, b, u);
  }

  lemma TagSplice(a: string, t: string, u: string, j: nat)
    requires j < |a| && t != []
    ensures (a + t)[j] == a[j] == (a + u)[j] && (a + t)[..j + 1] == a[..j + 1] == (a + u)[..j + 1]
    ensures var tag := a[..j + 1];
            var n := TagBody((a + t)[j + 1..], tag);
            j + 1 + n <= |a| ==> TagBody((a + u)[j + 1..], tag) == n
  {
    hide TagBody;
    assert (a + t)[j + 1..] == a[j + 1..] + t && (a + u)[j + 1..] == a[j + 1..] + u;
    if j + 1 + TagBody((a + t)[j + 1..], a[..j + 1]) <= |a| {
      TagBodyCloses(a[j + 1..], t, u, a[..j + 1]);
    }
  }

  lemma HoleSplice(L: Lexis, a: string, t: string, u: string)
    requires L.Valid() && a != [] && (a[0] == '?' || a[0] == ':' || a[0] == '@') && HoleStart(t) && MarkStart(u)
    requires HoleLead(L, a + t).len <= |a| && (HoleLead(L, a + t).kind == Placeholder ==> HoleLead(L, a + t).len < |a|)
    ensures HoleLead(L, a + u) == HoleLead(L, a + t)
  {
    hide Run;
    assert |a| > 1 ==> (a + t)[1] == a[1] == (a + u)[1];
    assert |a| > 2 ==> (a + t)[2] == a[2] == (a + u)[2];
    assert !L.IdentStart(t[0]) && !L.IdentStart(u[0]);
    HoleRun(L, a, t, u, 1);
    if |a| > 1 {
      HoleRun(L, a, t, u, 2);
    }
  }

  lemma HoleRun(L: Lexis, a: string, t: string, u: string, j: nat)
    requires L.Valid() && j <= |a| && HoleStart(t) && MarkStart(u)
    ensures var n := Run(L.IdentPart(), (a + t)[j..]);
            j + n < |a| ==> Run(L.IdentPart(), (a + u)[j..]) == n
    ensures j + Run(L.IdentPart(), (a + t)[j..]) <= |a|
  {
    hide Run;
    var b := a[j..];
    assert (a + t)[j..] == b + t && (a + u)[j..] == b + u;
    assert t[0] !in L.IdentPart();
    RunStops(L.IdentPart(), b, t);
    var n := Run(L.IdentPart(), b);
    if n < |b| {
      RunUnique(L.IdentPart(), b + u, n);
    }
  }

  lemma LineSplice(a: string, t: string, u: string)
    requires t != [] && t[0] != '\n' && IndexOrEnd(a + t, '\n') <= |a|
    ensures IndexOrEnd(a + u, '\n') == IndexOrEnd(a + t, '\n')
  {
    hide IndexOrEnd;
    var n := IndexOrEnd(a + t, '\n');
    assert (a + t)[|a|] == t[0];
    assert n < |a|;
    assert forall i :: 0 <= i <= n ==> (a + t)[i] == (a + u)[i];
    IndexOrEndUnique(a + u, '\n', n);
  }

  /** One scanning step that ends before a hole takes no notice of what stands
      in the place of the hole, unless a dollar sign would join on. */
  lemma LeadSplice(L: Lexis, a: string, t: string, u: string)
    requires L.Valid() && a != [] && HoleStart(t) && MarkStart(u)
    requires var x := Lead(L, a + t); x.len <= |a| && (x.kind == Placeholder ==> x.len < |a|)
    requires u[0] == '$' ==> !Joins(L, a, Lead(L, a + t))
    ensures Lead(L, a + u) == Lead(L, a + t)
  {
    hide DollarLead, WordLead, HoleLead, NumberLen, QuotedBody, BlockBody, IndexOrEnd, Run, Joins;
    var s, v, c := a + t, a + u, a[0];
    assert s[0] == c && v[0] == c;
    assert |a| > 1 ==> s[1] == a[1] == v[1];
    assert s[1..] == a[1..] + t && v[1..] == a[1..] + u;
    assert t[0] !in L.space && u[0] !in L.space;
    if c in L.space {
      RunStops(L.space, a, t);
      RunStops(L.space, a, u);
    } else if (c == '-' && At(s, 1) == '-') || (c == '#' && L.d == MySQL) {
      LineSplice(a, t, u);
    } else if c == '/' && At(s, 1) == '*' {
      assert |a| > 1;
      assert s[2..] == a[2..] + t && v[2..] == a[2..] + u;
      BlockBodyCloses(a[2..], t, u, 1, L.Nests());
    } else if c == '\'' || c == '"' || c == '`' {
      QuotedBodyCloses(a[1..], t, u, c, if c == '`' then false else L.Backslashes());
    } else if c == '$' {
      DollarSplice(L, a, t, u);
    } else if c == '?' || c == ':' || (c == '@' && L.d == MySQL) {
      HoleSplice(L, a, t, u);
    } else if c in L.digit || (c == '.' && DigitAt(s, 1)) {
      NumberSplice(L, a, t, u);
    } else if L.IdentStart(c) {
      WordSplice(L, a, t, u);
    }
  }

  /** A dollar sign at p would join on to what is before it. */
  ghost predicate Swallows(L: Lexis, s: string, ks: seq<Kind>, p: nat)
    requires |s| == |ks| && p <= |s|
  {
    p > 0 && (IsWord(ks[p - 1]) || exists q :: 0 <= q < p && TagFrom(L, s, q, p) && ks[q] == Operator)
  }

  lemma NotJoining(L: Lexis, a: string, t: string)
    requires a != [] && Lead(L, a + t).len <= |a| && !Swallows(L, a, Kinds(L, a + t)[..|a|], |a|)
    ensures !Joins(L, a, Lead(L, a + t))
  {
    hide Lead, Kinds, TagFrom;
    FirstKinds(L, a + t, |a| - 1);
    FirstKinds(L, a + t, 0);
  }

  lemma SwallowsLess(L: Lexis, a: string, ks: seq<Kind>, n: nat)
    requires |a| == |ks| && n <= |a| && Swallows(L, a[n..], ks[n..], |a| - n)
    ensures Swallows(L, a, ks, |a|)
  {
    var b, kb := a[n..], ks[n..];
    if !IsWord(kb[|b| - 1]) {
      var q :| 0 <= q < |b| && TagFrom(L, b, q, |b|) && kb[q] == Operator;
      assert forall i :: n + q < i < |a| ==> a[i] == b[i - n];
      assert TagFrom(L, a, n + q, |a|);
    }
  }

  /** t is a hole after a, and u can stand in its place. */
  ghost predicate Replaceable(L: Lexis, a: string, t: string, u: string) {
    && HoleStart(t) && MarkStart(u)
    && (a != [] ==> Kinds(L, a + t)[|a| - 1] != Kinds(L, a + t)[|a|] == Placeholder)
    && (u[0] == '$' ==> !Swallows(L, a, Kinds(L, a + t)[..|a|], |a|))
  }

  /** The first scanning step is the same, and so is what is left. */
  lemma SpliceFirst(L: Lexis, a: string, t: string, u: string)
    requires L.Valid() && a != [] && Replaceable(L, a, t, u)
    ensures var x := Lead(L, a + t);
            x.len <= |a| && Lead(L, a + u) == x && Replaceable(L, a[x.len..], t, u)
  {
    hide Lead, Joins, Swallows, Kinds;
    var s := a + t;
    LeadInside(L, s, |a|);
    var n := Lead(L, s).len;
    FirstKinds(L, s, |a| - 1);
    if u[0] == '$' { NotJoining(L, a, t); }
    LeadSplice(L, a, t, u);
    var b := a[n..];
    assert s[n..] == b + t;
    if b != [] { FirstKinds(L, s, |a|); }
    if u[0] == '$' {
      SuffixKinds(L, a, t);
      if Swallows(L, b, Kinds(L, b + t)[..|b|], |b|) { SwallowsLess(L, a, Kinds(L, s)[..|a|], n); }
    }
  }

  lemma SuffixKinds(L: Lexis, a: string, t: string)
    requires a != [] && Lead(L, a + t).len <= |a|
    ensures var n := Lead(L, a + t).len;
            Kinds(L, a + t)[..|a|] == Rep(Lead(L, a + t).kind, n) + Kinds(L, a[n..] + t)[..|a| - n]
    ensures Kinds(L, a + t)[..|a|][Lead(L, a + t).len..] == Kinds(L, a[Lead(L, a + t).len..] + t)[..|a| - Lead(L, a + t).len]
  {
    hide Lead;
    assert (a + t)[Lead(L, a + t).len..] == a[Lead(L, a + t).len..] + t;
  }

  /** The text before a hole keeps its kinds when the hole is replaced. */
  lemma {:induction false} Splice(L: Lexis, a: string, t: string, u: string)
    requires L.Valid() && Replaceable(L, a, t, u)
    ensures Kinds(L, a + u) == Kinds(L, a + t)[..|a|] + Kinds(L, u)
    decreases |a|
  {
    hide Lead, Replaceable;
    if a == [] {
      assert a + u == u;
    } else {
      SpliceFirst(L, a, t, u);
      SuffixKinds(L, a, t);
      var n := Lead(L, a + t).len;
      Splice(L, a[n..], t, u);
      assert (a + u)[n..] == a[n..] + u;
    }
  }

  // ---------- markers ----------

  lemma MarkerLead(L: Lexis, e: Engine, n: nat, r: string)
    requires L.Valid() && L.d == e.For() && (r != [] ==> r[0] !in L.IdentPart())
    ensures var m := Marker(e, n); MarkStart(m) && Lead(L, m + r) == Lexeme(Placeholder, |m|)
    ensures e != EnginePostgres ==> Marker(e, n)[0] == '?'
    ensures e == EnginePostgres ==> Marker(e, n)[0] == '$'
  {
    hide Run, FormatInt, WordLead, NumberLen, QuotedBody, BlockBody, TagBody, IndexOrEnd;
    var m := Marker(e, n);
    var s := m + r;
    assert '$' !in L.space && '?' !in L.space;
    if e == EnginePostgres {
      var d := FormatInt(n);
      assert d == Decimal(n) by { FormatIsDecimal(n); }
      DecimalChars(n);
      assert s[1..] == d + r;
      RunUnique(AsciiDigits, d + r, |d|);
      assert DigitAt(s, 1);
    } else {
      assert s[1..] == r;
      RunUnique(L.IdentPart(), r, 0);
    }
  }

  lemma FormatIsDecimal(n: nat)
    ensures FormatInt(n) == Decimal(n)
  {
  }

  /** A marker is one placeholder token's worth of text. */
  lemma MarkerKinds(L: Lexis, e: Engine, n: nat, r: string)
    requires L.Valid() && L.d == e.For() && (r != [] ==> r[0] !in L.IdentPart())
    ensures var m := Marker(e, n); Kinds(L, m + r) == Rep(Placeholder, |m|) + Kinds(L, r)
  {
    hide Lead, Marker;
    MarkerLead(L, e, n, r);
    var m := Marker(e, n);
    assert (m + r)[|m|..] == r;
  }

  /** A hole takes every identifier character after it. */
  lemma {:induction false} HoleEnds(L: Lexis, s: string, n: nat)
    requires L.Valid() && 0 < n < |s| && s[0] in "?:@"
    requires (forall i :: 0 <= i < n ==> Kinds(L, s)[i] == Placeholder) && Kinds(L, s)[n] != Placeholder
    ensures s[n] !in L.IdentPart()
    decreases n
  {
    hide Lead, Kinds;
    var x := Lead(L, s);
    FirstKinds(L, s, 0);
    FirstKinds(L, s, n - 1);
    FirstKinds(L, s, n);
    HoleLexeme(L, s);
    if x.len < n {
      var r := s[x.len..];
      FirstKinds(L, s, x.len);
      assert Kinds(L, r)[0] == Placeholder;
      FirstKinds(L, r, 0);
      PlaceholderStart(L, r);
      forall i | 0 <= i < n - x.len
        ensures Kinds(L, r)[i] == Placeholder
      {
        FirstKinds(L, s, x.len + i);
      }
      HoleEnds(L, r, n - x.len);
    }
  }

  lemma PlaceholderStart(L: Lexis, s: string)
    requires s != [] && Lead(L, s).kind == Placeholder
    ensures s[0] in "?:@$"
  {
    hide DollarLead, HoleLead, NumberLen, QuotedBody, BlockBody, IndexOrEnd;
  }

  lemma HoleLexeme(L: Lexis, s: string)
    requires L.Valid() && s != [] && s[0] in "?:@" && Lead(L, s).kind == Placeholder
    ensures Lead(L, s).len < |s| ==> s[Lead(L, s).len] !in L.IdentPart()
  {
    hide DollarLead, WordLead, NumberLen, QuotedBody, BlockBody, IndexOrEnd;
    assert '?' !in L.space && ':' !in L.space && '@' !in L.space;
    assert '@' !in L.digit && !L.IdentStart('@');
    var j := if s[0] == '@' && At(s, 1) == '@' then 2 else 1;
    if j <= |s| {
      var n := Run(L.IdentPart(), s[j..]);
      assert j + n < |s| ==> s[j..][n] == s[j + n];
    }
  }

  // ---------- the bound statement ----------

  /** h is a hole of sql: a whole placeholder token. */
  ghost predicate IsHole(L: Lexis, sql: string, ks: seq<Kind>, h: Token)
    requires |ks| == |sql|
  {
    && h.start < h.end <= |sql| && HoleStart(sql[h.start..])
    && (forall p :: h.start <= p < h.end ==> ks[p] == Placeholder)
    && (h.start > 0 ==> ks[h.start - 1] != Placeholder)
    && (h.end < |sql| ==> ks[h.end] != Placeholder)
  }

  ghost predicate AllHoles(L: Lexis, sql: string, ks: seq<Kind>, hs: seq<Token>)
    requires |ks| == |sql|
  {
    forall i :: 0 <= i < |hs| ==> IsHole(L, sql, ks, hs[i])
  }

  lemma TokenIsHole(L: Lexis, sql: string, toks: seq<Token>, i: nat)
    requires Tiles(toks, Kinds(L, sql)) && i < |toks| && toks[i].start < toks[i].end <= |sql| && PromptName(toks[i], sql).Some?
    ensures IsHole(L, sql, Kinds(L, sql), toks[i])
  {
    hide Kinds;
    var t := toks[i];
    if t.start > 0 {
      FirstToken(toks, |sql|, i);
      assert toks[i - 1].end == t.start && toks[i - 1].kind != t.kind;
    }
    if t.end < |sql| {
      assert i + 1 < |toks|;
      assert toks[i + 1].start == t.end && toks[i + 1].kind != t.kind;
    }
  }

  lemma FirstToken(toks: seq<Token>, n: nat, i: nat)
    requires Chained(toks, n) && i < |toks| && toks[i].start > 0
    ensures i > 0
  {
  }

  lemma {:induction false} HolesAreHoles(L: Lexis, sql: string, toks: seq<Token>, i: nat)
    requires Tiles(toks, Kinds(L, sql)) && TokensIn(toks, sql) && i <= |toks|
    ensures AllHoles(L, sql, Kinds(L, sql), Holes(toks[i..], sql))
    decreases |toks| - i
  {
    hide Kinds, IsHole, PromptName, Holes;
    if i < |toks| {
      HolesAreHoles(L, sql, toks, i + 1);
      HolesStep(toks, sql, i);
      if PromptName(toks[i], sql).Some? { TokenIsHole(L, sql, toks, i); }
    } else {
      assert toks[i..] == [];
      NothingYet(sql);
    }
  }

  /** The kinds of a statement with its holes filled by placeholder tokens. */
  function WovenKinds(ks: seq<Kind>, hs: seq<Token>, fills: seq<string>, last: nat): seq<Kind>
    requires |fills| == |hs| && last <= |ks|
    requires forall i :: 0 <= i < |hs| ==> hs[i].start < hs[i].end <= |ks|
  {
    if hs == [] then ks[last..]
    else
      (if last <= hs[0].start then ks[last..hs[0].start] else []) +
      (Rep(Placeholder, |fills[0]|) + WovenKinds(ks, hs[1..], fills[1..], hs[0].end))
  }

  lemma AfterHole(L: Lexis, sql: string, h: Token)
    requires L.Valid() && IsHole(L, sql, Kinds(L, sql), h)
    ensures h.end < |sql| ==> sql[h.end] !in L.IdentPart()
    ensures Kinds(L, sql[h.end..]) == Kinds(L, sql)[h.end..]
  {
    hide Kinds;
    if h.end < |sql| {
      Afresh(L, sql, h.end);
      var s := sql[h.start..];
      if h.start > 0 {
        Afresh(L, sql, h.start);
      } else {
        assert s == sql;
      }
      assert Kinds(L, s) == Kinds(L, sql)[h.start..];
      HoleEnds(L, s, h.end - h.start);
    } else {
      assert sql[h.end..] == [];
    }
  }

  /** What follows a filled hole starts the way it did. */
  lemma RestStart(L: Lexis, sql: string, ks: seq<Kind>, h: Token, hs: seq<Token>, fills: seq<string>)
    requires |ks| == |sql| && IsHole(L, sql, ks, h) && AllHoles(L, sql, ks, hs)
    requires |fills| == |hs| && Ascending(sql, hs, h.end)
    ensures var r := Woven(sql, hs, fills, h.end); if h.end == |sql| then r == [] else r != [] && r[0] == sql[h.end]
  {
    if hs != [] {
      assert IsHole(L, sql, ks, hs[0]);
      assert hs[0].start != h.end;
    }
  }

  /** The first hole of what is left can give way to a marker that does not join
      on to the text before it. */
  lemma HoleReplaceable(L: Lexis, e: Engine, sql: string, h: Token, last: nat, n: nat, r: string)
    requires L.Valid() && L.d == e.For() && IsHole(L, sql, Kinds(L, sql), h) && last <= h.start
    requires Kinds(L, sql[last..]) == Kinds(L, sql)[last..]
    requires r != [] ==> r[0] !in L.IdentPart()
    requires e == EnginePostgres ==> !Swallows(L, sql, Kinds(L, sql), h.start)
    ensures Replaceable(L, sql[last..h.start], sql[h.start..], Marker(e, n) + r)
  {
    hide Kinds, Marker, Lead, Swallows;
    var a, t := sql[last..h.start], sql[h.start..];
    var ks := Kinds(L, sql);
    assert sql[last..] == a + t;
    assert Kinds(L, a + t)[..|a|] == ks[last..h.start];
    MarkerLead(L, e, n, r);
    if e == EnginePostgres && Swallows(L, a, Kinds(L, a + t)[..|a|], |a|) {
      assert sql[..h.start][last..] == a && ks[..h.start][last..] == ks[last..h.start];
      SwallowsLess(L, sql[..h.start], ks[..h.start], last);
      SwallowsHere(L, sql, ks, h.start);
    }
  }

  lemma WeaveOne(L: Lexis, e: Engine, sql: string, h: Token, last: nat, n: nat, r: string)
    requires L.Valid() && L.d == e.For() && IsHole(L, sql, Kinds(L, sql), h) && last <= h.start
    requires Kinds(L, sql[last..]) == Kinds(L, sql)[last..]
    requires r != [] ==> r[0] !in L.IdentPart()
    requires e == EnginePostgres ==> !Swallows(L, sql, Kinds(L, sql), h.start)
    ensures Kinds(L, sql[last..h.start] + (Marker(e, n) + r)) ==
            Kinds(L, sql)[last..h.start] + (Rep(Placeholder, |Marker(e, n)|) + Kinds(L, r))
  {
    hide Kinds, Marker, Swallows, Replaceable;
    var a, t := sql[last..h.start], sql[h.start..];
    assert sql[last..] == a + t;
    assert Kinds(L, a + t)[..|a|] == Kinds(L, sql)[last..h.start];
    HoleReplaceable(L, e, sql, h, last, n, r);
    MarkerKinds(L, e, n, r);
    Splice(L, a, t, Marker(e, n) + r);
  }

  lemma SwallowsHere(L: Lexis, s: string, ks: seq<Kind>, p: nat)
    requires |s| == |ks| && p <= |s|
    ensures Swallows(L, s[..p], ks[..p], p) <==> Swallows(L, s, ks, p)
  {
    assert forall q :: 0 <= q < p ==> (TagFrom(L, s[..p], q, p) <==> TagFrom(L, s, q, p));
  }

  /** No hole directly follows what a dollar sign would join on to. */
  ghost predicate Apart(L: Lexis, e: Engine, sql: string, hs: seq<Token>)
    requires forall i :: 0 <= i < |hs| ==> hs[i].start <= |sql|
  {
    e == EnginePostgres ==> forall i :: 0 <= i < |hs| ==> !Swallows(L, sql, Kinds(L, sql), hs[i].start)
  }

  /** A dollar sign that joins on is not the placeholder it was meant to be. */
  lemma Swallowed(L: Lexis, sql: string, h: Token, last: nat, u: string)
    requires L.Valid() && L.d == Postgres && IsHole(L, sql, Kinds(L, sql), h) && last <= h.start
    requires last > 0 ==> Kinds(L, sql)[last - 1] == Placeholder && sql[last] !in L.IdentPart()
    requires u != [] && u[0] == '$' && Swallows(L, sql, Kinds(L, sql), h.start)
    ensures var a, ks := sql[last..h.start], Kinds(L, sql);
            var w := Kinds(L, a + u);
            w[..|a|] != ks[last..h.start] || w[|a|] != Placeholder
  {
    hide Kinds;
    var a, ks := sql[last..h.start], Kinds(L, sql);
    var s := a + u;
    var w := Kinds(L, s);
    assert h.start > last;
    assert forall i :: 0 <= i < |a| ==> s[i] == sql[last + i];
    if w[..|a|] == ks[last..h.start] {
      assert forall i :: 0 <= i < |a| ==> w[i] == w[..|a|][i] == ks[last + i];
      if IsWord(ks[h.start - 1]) {
        WordGoesOn(L, s, |a|);
      } else {
        var q :| 0 <= q < h.start && TagFrom(L, sql, q, h.start) && ks[q] == Operator;
        assert q >= last;
        assert TagFrom(L, s, q - last, |a|);
        DollarOpens(L, s, q - last, |a|);
      }
    }
  }

  lemma {:induction false} ReadBack(L: Lexis, e: Engine, sql: string, hs: seq<Token>, last: nat, from: nat)
    requires L.Valid() && L.d == e.For() && AllHoles(L, sql, Kinds(L, sql), hs) && Ascending(sql, hs, last)
    requires last > 0 ==> Kinds(L, sql)[last - 1] == Placeholder && (last < |sql| ==> sql[last] !in L.IdentPart())
    requires Kinds(L, sql[last..]) == Kinds(L, sql)[last..]
    ensures var marks := Markers(e, from, |hs|);
            Kinds(L, Woven(sql, hs, marks, last)) == WovenKinds(Kinds(L, sql), hs, marks, last) <==> Apart(L, e, sql, hs)
    decreases |hs|
  {
    hide Kinds, Swallows, Marker;
    var ks := Kinds(L, sql);
    if hs != [] {
      var h, rest, marks := hs[0], hs[1..], Markers(e, from, |hs|);
      assert IsHole(L, sql, ks, h);
      assert marks[0] == Marker(e, from + 1) && marks[1..] == Markers(e, from + 1, |rest|);
      AfterHole(L, sql, h);
      RestStart(L, sql, ks, h, rest, marks[1..]);
      var r, wr := Woven(sql, rest, marks[1..], h.end), WovenKinds(ks, rest, marks[1..], h.end);
      ReadBack(L, e, sql, rest, h.end, from + 1);
      ApartFirst(L, e, sql, hs);
      MarkerLead(L, e, from + 1, r);
      var a, m := ks[last..h.start], Rep(Placeholder, |marks[0]|);
      if e == EnginePostgres && Swallows(L, sql, ks, h.start) {
        Swallowed(L, sql, h, last, marks[0] + r);
        var all := a + (m + wr);
        assert all[..|a|] == a && all[|a|] == m[0] == Placeholder;
      } else {
        WeaveOne(L, e, sql, h, last, from + 1, r);
        Cancel(a, m, Kinds(L, r), wr);
      }
    }
  }

  lemma Cancel<T>(a: seq<T>, m: seq<T>, b: seq<T>, c: seq<T>)
    ensures a + (m + b) == a + (m + c) <==> b == c
  {
    if a + (m + b) == a + (m + c) {
      assert b == (a + (m + b))[|a| + |m|..] == (a + (m + c))[|a| + |m|..] == c;
    }
  }

  lemma ApartFirst(L: Lexis, e: Engine, sql: string, hs: seq<Token>)
    requires hs != [] && forall i :: 0 <= i < |hs| ==> hs[i].start <= |sql|
    ensures Apart(L, e, sql, hs) <==>
            (e == EnginePostgres ==> !Swallows(L, sql, Kinds(L, sql), hs[0].start)) && Apart(L, e, sql, hs[1..])
  {
    hide Swallows, Kinds;
    var rest := hs[1..];
    assert forall i :: 0 < i < |hs| ==> hs[i] == rest[i - 1];
  }

  /** What BindPlaceholders sends reads as it was meant to: every marker is a
      placeholder, everything else is what it was. On PostgreSQL this holds
      exactly when no hole directly follows a word or a tag. */
  lemma BoundReadsBack(L: Lexis, e: Engine, sql: string)
    requires L.Valid() && L.d == e.For()
    ensures var hs := HolesOf(L, sql);
            var marks := Markers(e, 0, |hs|);
            Kinds(L, Woven(sql, hs, marks, 0)) == WovenKinds(Kinds(L, sql), hs, marks, 0) <==> Apart(L, e, sql, hs)
  {
    hide Kinds, WovenKinds, Apart, Runs;
    var toks := Runs(Kinds(L, sql));
    RunsTile(Kinds(L, sql));
    TokensInside(L, sql);
    HolesAreHoles(L, sql, toks, 0);
    assert toks[0..] == toks && sql[0..] == sql && Kinds(L, sql)[0..] == Kinds(L, sql);
    ReadBack(L, e, sql, HolesOf(L, sql), 0, 0);
  }

  /** The statement "x?": on PostgreSQL its marker becomes part of the name. */
  lemma MarkerBecomesName(L: Lexis)
    requires L.Valid() && L.d == Postgres
    ensures HolesOf(L, "x?") == [Token(Placeholder, 1, 2)]
    ensures Woven("x?", HolesOf(L, "x?"), Markers(EnginePostgres, 0, 1), 0) == "x$1"
    ensures Placeholder !in Kinds(L, "x$1")
  {
    hide Kinds, Runs, Holes;
    NameKinds(L);
    var sql, ks := "x?", Kinds(L, "x?");
    assert ks == [ks[0], Placeholder];
    TwoRuns(ks[0]);
    OneHole(ks[0]);
    var hs := HolesOf(L, sql);
    assert hs[1..] == [];
    assert sql[2..] == "" && sql[0..1] == "x";
    assert FormatInt(1) == "1";
  }

  lemma TwoRuns(k: Kind)
    requires k != Placeholder
    ensures Runs([k, Placeholder]) == [Token(k, 0, 1), Token(Placeholder, 1, 2)]
  {
    assert [k, Placeholder][..1] == [k] && [k][..0] == [];
    assert Runs([k]) == [Token(k, 0, 1)];
  }

  lemma OneHole(k: Kind)
    requires IsWord(k)
    ensures var toks := [Token(k, 0, 1), Token(Placeholder, 1, 2)];
            TokensIn(toks, "x?") && Holes(toks, "x?") == [Token(Placeholder, 1, 2)]
  {
    var sql, toks := "x?", [Token(k, 0, 1), Token(Placeholder, 1, 2)];
    assert toks[1..] == [Token(Placeholder, 1, 2)] && toks[1..][1..] == [];
    assert PromptName(toks[0], sql) == None && PromptName(toks[1], sql) == Some("");
    assert Holes(toks[1..], sql) == [Token(Placeholder, 1, 2)] + Holes([], sql);
  }

  lemma NameKinds(L: Lexis)
    requires L.Valid() && L.d == Postgres
    ensures IsWord(Kinds(L, "x?")[0]) && Kinds(L, "x?")[1] == Placeholder
    ensures Placeholder !in Kinds(L, "x$1")
  {
    var a, b := "x?", "x$1";
    assert 'x' in L.letter && '1' in L.digit && '?' !in L.IdentPart() && '?' !in L.space;
    RunUnique(L.IdentPart(), a, 1);
    RunUnique(L.IdentPart(), b, 3);
    assert a[1..] == "?" && a[1..][1..] == "" && b[3..] == "";
    assert Lead(L, a).len == 1 && IsWord(Lead(L, a).kind);
    assert Lead(L, b).len == 3 && IsWord(Lead(L, b).kind);
    assert Lead(L, "?") == Lexeme(Placeholder, 1);
    hide Lead;
    FirstKinds(L, a, 0);
    FirstKinds(L, a, 1);
    FirstKinds(L, "?", 0);
    forall p | 0 <= p < 3
      ensures Kinds(L, b)[p] == Lead(L, b).kind
    {
      FirstKinds(L, b, p);
    }
  }
}
