/** How far the tokenizer of sqlhl.go can look ahead. A fragment that leaves no
    literal, identifier or comment open is scanned the same way whatever comes
    after it, as long as that starts with a space, a comma or a closing
    parenthesis: this is what lets ddl.go check a typed expression on its own
    and then put it inside a statement. */
module SqlhlLocality {
  import opened Text
  import opened Sqlhl

  predicate Stop(c: char) { c == ' ' || c == ',' || c == ')' }

  /** Nothing, or something that starts with a space, a comma or a `)`. */
  predicate Stopper(t: string) { t == [] || Stop(t[0]) }

  /** What ValidateExpression appends before it tokenizes. */
  const SENTINEL := " )"

  lemma StopOutside(L: Lexis, t: string)
    requires L.Valid() && Stopper(t) && t != []
    ensures t[0] !in L.IdentPart() && t[0] !in AsciiDigits && t[0] !in HexDigits && !L.IdentStart(t[0])
  {
  }

  lemma NumberStops(a: string, t: string)
    requires a != [] && Stopper(t)
    ensures NumberLen(a + t) == NumberLen(a)
  {
    var s := a + t;
    assert t != [] ==> t[0] !in AsciiDigits && t[0] !in HexDigits;
    assert At(s, |a|) == '\0' || Stop(At(s, |a|));
    if s[0] == '0' && (At(s, 1) == 'x' || At(s, 1) == 'X') {
      assert s[2..] == a[2..] + t;
      RunStops(HexDigits, a[2..], t);
    } else {
      RunStops(AsciiDigits, a, t);
      FractionStops(a, t, Run(AsciiDigits, a));
      ExponentStops(a, t, FractionEnd(a, Run(AsciiDigits, a)));
    }
  }

  lemma FractionStops(a: string, t: string, p: nat)
    requires Stopper(t) && p <= |a|
    ensures FractionEnd(a + t, p) == FractionEnd(a, p)
  {
    if p < |a| {
      assert (a + t)[p + 1..] == a[p + 1..] + t;
      RunStops(AsciiDigits, a[p + 1..], t);
    }
  }

  lemma ExponentStops(a: string, t: string, p: nat)
    requires Stopper(t) && p <= |a|
    ensures ExponentEnd(a + t, p) == ExponentEnd(a, p)
  {
    hide Run;
    var s := a + t;
    assert At(s, p) == At(a, p) || (p == |a| && Stop(At(s, p)));
    if p < |a| {
      var k := if At(s, p + 1) == '+' || At(s, p + 1) == '-' then p + 2 else p + 1;
      assert DigitAt(s, k) <==> DigitAt(a, k);
      if k <= |a| {
        assert s[k..] == a[k..] + t;
        RunStops(AsciiDigits, a[k..], t);
      }
    }
  }

  lemma WordCloses(L: Lexis, a: string, t: string)
    requires L.Valid() && Stopper(t)
    requires a != [] && L.IdentStart(a[0])
    requires WordLead(L, a + SENTINEL).len <= |a|
    ensures WordLead(L, a + t) == WordLead(L, a + SENTINEL)
  {
    hide Run, QuotedBody;
    var x := SENTINEL;
    if t != [] { StopOutside(L, t); }
    StopOutside(L, x);
    RunStops(L.IdentPart(), a, x);
    RunStops(L.IdentPart(), a, t);
    var end := Run(L.IdentPart(), a);
    assert (a + x)[..end] == a[..end] == (a + t)[..end];
    if end < |a| {
      assert (a + x)[end + 1..] == a[end + 1..] + x && (a + t)[end + 1..] == a[end + 1..] + t;
      if IsStringPrefix(L, a[..end]) && a[end] == '\'' {
        QuotedBodyCloses(a[end + 1..], x, t, '\'', a[0] in L.escaping);
      }
    }
  }

  lemma DollarCloses(L: Lexis, a: string, t: string)
    requires L.Valid() && Stopper(t)
    requires a != [] && a[0] == '$'
    requires DollarLead(L, a + SENTINEL).len <= |a|
    ensures DollarLead(L, a + t) == DollarLead(L, a + SENTINEL)
  {
    hide Run, TagBody;
    var x, tags := SENTINEL, L.IdentPart() - {'$'};
    if t != [] { StopOutside(L, t); }
    StopOutside(L, x);
    assert (a + x)[1..] == a[1..] + x && (a + t)[1..] == a[1..] + t;
    assert DigitAt(a + x, 1) == DigitAt(a, 1) == DigitAt(a + t, 1);
    RunStops(AsciiDigits, a[1..], x);
    RunStops(AsciiDigits, a[1..], t);
    RunStops(tags, a[1..], x);
    RunStops(tags, a[1..], t);
    var j := 1 + Run(tags, a[1..]);
    if j < |a| && a[j] == '$' {
      assert (a + x)[..j + 1] == a[..j + 1] == (a + t)[..j + 1];
      assert (a + x)[j + 1..] == a[j + 1..] + x && (a + t)[j + 1..] == a[j + 1..] + t;
      if L.Dollars() && !DigitAt(a, 1) {
        TagBodyCloses(a[j + 1..], x, t, a[..j + 1]);
      }
    }
  }

  lemma HoleCloses(L: Lexis, a: string, t: string)
    requires L.Valid() && Stopper(t)
    requires a != [] && (a[0] == '?' || a[0] == ':' || a[0] == '@')
    ensures HoleLead(L, a + t) == HoleLead(L, a)
  {
    hide Run;
    var s, cs := a + t, L.IdentPart();
    if t != [] { StopOutside(L, t); }
    assert s[1..] == a[1..] + t;
    assert At(s, 1) == At(a, 1) || (|a| == 1 && Stop(At(s, 1)));
    assert StartAt(L, s, 1) == StartAt(L, a, 1) && DigitAt(s, 1) == DigitAt(a, 1);
    RunStops(cs, a[1..], t);
    if |a| > 1 {
      assert s[2..] == a[2..] + t;
      assert StartAt(L, s, 2) == StartAt(L, a, 2);
      RunStops(cs, a[2..], t);
    }
  }

  lemma SpaceCloses(L: Lexis, a: string, t: string)
    requires L.Valid() && Stopper(t)
    requires Run(L.space, a + SENTINEL) <= |a|
    ensures Run(L.space, a + t) == Run(L.space, a + SENTINEL) < |a|
  {
    hide Run;
    var b := a + SENTINEL;
    var n := Run(L.space, b);
    assert ' ' in L.space && b[|a|] == ' ';
    assert forall i :: 0 <= i < |a| ==> b[i] == a[i] == (a + t)[i];
    RunUnique(L.space, a + t, n);
  }

  lemma LineCloses(a: string, t: string)
    requires IndexOrEnd(a + SENTINEL, '\n') <= |a|
    ensures IndexOrEnd(a + t, '\n') == IndexOrEnd(a + SENTINEL, '\n')
  {
    hide IndexOrEnd;
    var b := a + SENTINEL;
    var n := IndexOrEnd(b, '\n');
    assert b[n] == '\n';
    assert forall i :: 0 <= i < |a| ==> b[i] == a[i] == (a + t)[i];
    IndexOrEndUnique(a + t, '\n', n);
  }

  lemma BlockCloses(a: string, t: string, nests: bool)
    requires Stopper(t) && |a| >= 2
    requires 2 + BlockBody((a + SENTINEL)[2..], 1, nests) <= |a|
    ensures BlockBody((a + t)[2..], 1, nests) == BlockBody((a + SENTINEL)[2..], 1, nests)
  {
    assert (a + SENTINEL)[2..] == a[2..] + SENTINEL && (a + t)[2..] == a[2..] + t;
    BlockBodyCloses(a[2..], SENTINEL, t, 1, nests);
  }

  lemma QuoteCloses(a: string, t: string, q: char, bs: bool)
    requires Stopper(t) && a != [] && !Stop(q)
    requires 1 + QuotedBody((a + SENTINEL)[1..], q, bs) <= |a|
    ensures QuotedBody((a + t)[1..], q, bs) == QuotedBody((a + SENTINEL)[1..], q, bs)
  {
    assert (a + SENTINEL)[1..] == a[1..] + SENTINEL && (a + t)[1..] == a[1..] + t;
    QuotedBodyCloses(a[1..], SENTINEL, t, q, bs);
  }

  /** One scanning step that ends inside a ends there whatever follows. */
  lemma LeadCloses(L: Lexis, a: string, t: string)
    requires L.Valid() && Stopper(t) && a != []
    requires Lead(L, a + SENTINEL).len <= |a|
    ensures Lead(L, a + t) == Lead(L, a + SENTINEL)
  {
    hide DollarLead, WordLead, HoleLead, NumberLen, QuotedBody, BlockBody, IndexOrEnd, Run;
    var x, c := SENTINEL, a[0];
    assert (a + x)[0] == c == (a + t)[0];
    assert |a| > 1 ==> At(a + x, 1) == a[1] == At(a + t, 1);
    assert |a| == 1 ==> At(a + x, 1) == ' ' && (At(a + t, 1) == '\0' || Stop(At(a + t, 1)));
    if c in L.space {
      SpaceCloses(L, a, t);
    } else if (c == '-' && At(a + x, 1) == '-') || (c == '#' && L.d == MySQL) {
      LineCloses(a, t);
    } else if c == '/' && At(a + x, 1) == '*' {
      BlockCloses(a, t, L.Nests());
    } else if c == '\'' {
      QuoteCloses(a, t, '\'', L.Backslashes());
    } else if c == '"' {
      QuoteCloses(a, t, '"', L.Backslashes());
    } else if c == '`' {
      QuoteCloses(a, t, '`', false);
    } else if c == '$' {
      DollarCloses(L, a, t);
    } else if c == '?' || c == ':' || (c == '@' && L.d == MySQL) {
      HoleCloses(L, a, x);
      HoleCloses(L, a, t);
    } else if c in L.digit || (c == '.' && DigitAt(a + x, 1)) {
      NumberStops(a, x);
      NumberStops(a, t);
    } else if L.IdentStart(c) {
      WordCloses(L, a, t);
    }
  }

  /** Scanning a + " )" comes to stand exactly at the end of a: nothing in a is
      left open, and nothing in it waits for what comes next. */
  predicate Settles(L: Lexis, a: string) {
    a == [] ||
    (var n := Lead(L, a + SENTINEL).len;
     n <= |a| && Settles(L, a[n..]))
  }

  /** Lexical locality: a settled fragment keeps its tokens in front of every
      stopper, and the stopper keeps its own. */
  lemma {:induction false} Locality(L: Lexis, a: string, t: string)
    requires L.Valid() && Settles(L, a) && Stopper(t)
    ensures Kinds(L, a + t) == Kinds(L, a) + Kinds(L, t)
    decreases |a|
  {
    hide Lead;
    if a == [] {
      assert a + t == t;
    } else {
      var e: string := [];
      LeadCloses(L, a, t);
      LeadCloses(L, a, e);
      assert a + e == a;
      var l := Lead(L, a);
      var n := l.len;
      assert (a + t)[n..] == a[n..] + t;
      Locality(L, a[n..], t);
      var r, ka, kt := Rep(l.kind, n), Kinds(L, a[n..]), Kinds(L, t);
      assert r + (ka + kt) == (r + ka) + kt;
    }
  }

  /** Only a run of spaces can end between the two characters of the
      sentinel. */
  lemma LeadSparesSentinel(L: Lexis, a: string)
    requires L.Valid() && a != []
    ensures Lead(L, a + SENTINEL).len == |a| + 1 ==> forall i :: 0 <= i < |a| ==> a[i] in L.space
  {
    hide DollarLead, WordLead, HoleLead, NumberLen, QuotedBody, BlockBody, IndexOrEnd, Run;
    var s, c := a + SENTINEL, a[0];
    assert s[|a|] == ' ' && s[|a| + 1] == ')';
    if c in L.space {
      var n := Run(L.space, s);
      assert n > |a| ==> forall i :: 0 <= i < |a| ==> s[i] == a[i] && s[i] in L.space;
    } else if c == '$' {
      DollarSparesSentinel(L, a);
    } else if c == '?' || c == ':' || (c == '@' && L.d == MySQL) {
      HoleCloses(L, a, SENTINEL);
    } else if c in L.digit || (c == '.' && DigitAt(s, 1)) {
      NumberStops(a, SENTINEL);
    } else if L.IdentStart(c) {
      WordSparesSentinel(L, a);
    } else if c == '/' && At(s, 1) == '*' {
      BlockBodyEnd(s[2..], 1, L.Nests());
    } else {
      QuotedBodyEnd(s[1..], c, L.Backslashes());
      QuotedBodyEnd(s[1..], c, false);
    }
  }

  lemma DollarSparesSentinel(L: Lexis, a: string)
    requires L.Valid() && a != [] && a[0] == '$'
    ensures DollarLead(L, a + SENTINEL).len != |a| + 1
  {
    hide Run, TagBody;
    var s, tags := a + SENTINEL, L.IdentPart() - {'$'};
    StopOutside(L, SENTINEL);
    assert s[1..] == a[1..] + SENTINEL;
    RunStops(AsciiDigits, a[1..], SENTINEL);
    RunStops(tags, a[1..], SENTINEL);
    var j := 1 + Run(tags, a[1..]);
    if s[j] == '$' {
      var tag, r := s[..j + 1], s[j + 1..];
      TagBodyFirst(r, tag);
      var n := TagBody(r, tag);
      if n >= |tag| && TagFirst(r, tag, n - |tag|) {
        assert r[n - |tag|..n][|tag| - 1] == r[n - 1];
      }
    }
  }

  lemma WordSparesSentinel(L: Lexis, a: string)
    requires L.Valid() && a != [] && L.IdentStart(a[0])
    ensures WordLead(L, a + SENTINEL).len != |a| + 1
  {
    hide Run, QuotedBody;
    var s := a + SENTINEL;
    StopOutside(L, SENTINEL);
    RunStops(L.IdentPart(), a, SENTINEL);
    var end := Run(L.IdentPart(), a);
    if end < |a| {
      QuotedBodyEnd(s[end + 1..], '\'', a[0] in L.escaping);
    }
  }

  lemma LeadWhole(L: Lexis, s: string)
    requires s != [] && Lead(L, s).len == |s|
    ensures Kinds(L, s) == Rep(Lead(L, s).kind, |s|)
  {
    hide Lead;
    assert s[|s|..] == [] && Kinds(L, []) == [];
  }

  /** The sentinel stands alone: the last character of a + " )" is an operator
      that is not merged with the one before it. */
  predicate SentinelAlone(L: Lexis, a: string) {
    var ks := Kinds(L, a + SENTINEL);
    ks[|a| + 1] == Operator && ks[|a|] != Operator
  }

  lemma SentinelKinds(L: Lexis)
    requires L.Valid()
    ensures Kinds(L, SENTINEL) == [Plain, Operator]
  {
    var x := SENTINEL;
    assert x[0] == ' ' && x[1] == ')' && ' ' in L.space && ')' !in L.space && ')' !in L.letter && ')' !in L.digit;
    RunUnique(L.space, x, 1);
    assert x[1..] == ")";
    assert Lead(L, x) == Lexeme(Plain, 1);
    assert Lead(L, ")") == Lexeme(Operator, 1);
    assert Kinds(L, ")") == [Operator] by {
      assert ")"[1..] == "" && Kinds(L, "") == [];
    }
  }

  /** The check ValidateExpression makes with its sentinel says exactly that the
      fragment settles. */
  lemma {:induction false} SentinelSettles(L: Lexis, a: string)
    requires L.Valid() && (a != [] ==> a[|a| - 1] !in L.space)
    ensures SentinelAlone(L, a) <==> Settles(L, a)
    decreases |a|
  {
    hide Lead;
    if a == [] {
      assert a + SENTINEL == SENTINEL;
      SentinelKinds(L);
    } else {
      var s := a + SENTINEL;
      var l := Lead(L, s);
      var n := l.len;
      LeadSparesSentinel(L, a);
      if n <= |a| {
        assert s[n..] == a[n..] + SENTINEL;
        SentinelSettles(L, a[n..]);
      } else {
        LeadWhole(L, s);
      }
    }
  }

  lemma {:induction false} SettlesAppend(L: Lexis, a: string, b: string)
    requires L.Valid() && Settles(L, a) && Settles(L, b) && Stopper(b)
    ensures Settles(L, a + b)
    decreases |a|
  {
    hide Lead;
    if a == [] {
      assert a + b == b;
    } else {
      assert (a + b) + SENTINEL == a + (b + SENTINEL);
      LeadCloses(L, a, b + SENTINEL);
      var n := Lead(L, a + SENTINEL).len;
      SettlesAppend(L, a[n..], b);
      assert (a + b)[n..] == a[n..] + b;
    }
  }

  lemma {:induction false} SpacesKinds(L: Lexis, a: string, t: string)
    requires L.Valid() && forall i :: 0 <= i < |a| ==> a[i] in L.space
    ensures Kinds(L, a + t) == Rep(Plain, |a|) + Kinds(L, t)
  {
    hide Lead;
    if a == [] {
      assert a + t == t && Rep(Plain, 0) + Kinds(L, t) == Kinds(L, t);
    } else {
      var r := a[1..] + t;
      SpacesKinds(L, a[1..], t);
      assert a + t == [a[0]] + r;
      SpaceKinds(L, a[0], r);
      assert [Plain] + (Rep(Plain, |a| - 1) + Kinds(L, t)) == Rep(Plain, |a|) + Kinds(L, t);
    }
  }

  lemma LeadSpace(L: Lexis, s: string)
    requires s != [] && s[0] in L.space
    ensures Lead(L, s) == Lexeme(Plain, Run(L.space, s))
  {
  }

  /** A space in front of a text changes nothing about the rest. */
  lemma SpaceKinds(L: Lexis, c: char, r: string)
    requires c in L.space
    ensures Kinds(L, [c] + r) == [Plain] + Kinds(L, r)
  {
    hide Lead, Run;
    var s, n := [c] + r, Run(L.space, r);
    assert s[1..] == r;
    RunUnique(L.space, s, n + 1);
    LeadSpace(L, s);
    assert s[n + 1..] == r[n..];
    assert Kinds(L, s) == Rep(Plain, n + 1) + Kinds(L, r[n..]);
    if n == 0 {
      assert r[0..] == r && Rep(Plain, 1) == [Plain];
    } else {
      LeadSpace(L, r);
      assert Kinds(L, r) == Rep(Plain, n) + Kinds(L, r[n..]);
      assert Rep(Plain, n + 1) == [Plain] + Rep(Plain, n);
    }
  }

  /** Lexical locality, for every text: when scanning a + " )" ends in a lone
      parenthesis, what comes after a cannot change how a reads, and a cannot
      change how what comes after it reads. */
  lemma {:induction false} LexicalLocality(L: Lexis, a: string, t: string)
    requires L.Valid() && SentinelAlone(L, a) && Stopper(t)
    ensures Kinds(L, a + t) == Kinds(L, a) + Kinds(L, t)
    decreases |a|
  {
    hide Lead;
    if a == [] {
      assert a + t == t;
    } else {
      var s := a + SENTINEL;
      var l := Lead(L, s);
      var n := l.len;
      LeadSparesSentinel(L, a);
      if n <= |a| {
        var e: string := [];
        LeadCloses(L, a, t);
        LeadCloses(L, a, e);
        assert a + e == a;
        assert s[n..] == a[n..] + SENTINEL && (a + t)[n..] == a[n..] + t;
        LexicalLocality(L, a[n..], t);
        var r, ka, kt := Rep(l.kind, n), Kinds(L, a[n..]), Kinds(L, t);
        assert r + (ka + kt) == (r + ka) + kt;
      } else if n == |a| + 1 {
        SpacesKinds(L, a, t);
        SpacesKinds(L, a, []);
        assert a + [] == a && Rep(Plain, |a|) + [] == Rep(Plain, |a|);
      } else {
        LeadWhole(L, s);
      }
    }
  }

  function Shift(out: seq<Token>, n: nat): (r: seq<Token>)
    ensures |r| == |out|
  {
    seq(|out|, i requires 0 <= i < |out| => Token(out[i].kind, out[i].start + n, out[i].end + n))
  }

  /** Two token lists end to end, merged where the seam has one kind. */
  function Seam(a: seq<Token>, b: seq<Token>): seq<Token> {
    if b == [] then a else Grow(a, b[0].kind, b[0].start, b[0].end) + b[1..]
  }

  lemma SeamEmpty(ks: seq<Kind>)
    ensures Runs(ks) == Seam(Runs(ks), Shift(Runs([]), |ks|))
  {
  }

  lemma {:induction false} RunsConcat(ks: seq<Kind>, more: seq<Kind>)
    ensures Runs(ks + more) == Seam(Runs(ks), Shift(Runs(more), |ks|))
  {
    hide Runs, Grow, Seam, Shift;
    if more == [] {
      assert ks + more == ks;
      SeamEmpty(ks);
    } else {
      var n := |more| - 1;
      var less, k := more[..n], more[n];
      assert more == less + [k] && ks + more == (ks + less) + [k];
      RunsConcat(ks, less);
      RunsSnoc(ks + less, k);
      RunsSnoc(less, k);
      SeamGrow(Runs(ks), Runs(less), |ks|, k, n);
    }
  }

  lemma SeamGrow(a: seq<Token>, b: seq<Token>, m: nat, k: Kind, n: nat)
    requires if b == [] then n == 0 else b[|b| - 1].end == n
    ensures Seam(a, Shift(Grow(b, k, n, n + 1), m)) == Grow(Seam(a, Shift(b, m)), k, m + n, m + n + 1)
  {
    hide Grow, Seam;
    var sb := Shift(b, m);
    GrowIs(b, k, n, n + 1);
    if b == [] {
      SeamIs(a, sb);
      assert Shift(Grow(b, k, n, n + 1), m) == [Token(k, m, m + 1)];
      SeamIs(a, [Token(k, m, m + 1)]);
    } else if b[|b| - 1].kind != k {
      assert Shift(Grow(b, k, n, n + 1), m) == sb + [Token(k, m + n, m + n + 1)];
      SeamAdd(a, sb, Token(k, m + n, m + n + 1));
    } else {
      var last := Token(k, sb[|b| - 1].start, m + n + 1);
      assert Shift(Grow(b, k, n, n + 1), m) == sb[..|b| - 1] + [last];
      SeamExtend(a, sb, last);
    }
  }

  lemma SeamIs(a: seq<Token>, b: seq<Token>)
    ensures Seam(a, b) == if b == [] then a else Grow(a, b[0].kind, b[0].start, b[0].end) + b[1..]
    ensures |b| == 1 ==> Seam(a, b) == Grow(a, b[0].kind, b[0].start, b[0].end)
  {
  }

  lemma SeamAdd(a: seq<Token>, b: seq<Token>, t: Token)
    requires b != [] && b[|b| - 1].kind != t.kind
    ensures Seam(a, b + [t]) == Grow(Seam(a, b), t.kind, t.start, t.end)
  {
    hide Grow, Seam;
    var h := Grow(a, b[0].kind, b[0].start, b[0].end);
    GrowIs(a, b[0].kind, b[0].start, b[0].end);
    SeamIs(a, b);
    SeamIs(a, b + [t]);
    GrowIs(h + b[1..], t.kind, t.start, t.end);
    assert (b + [t])[1..] == b[1..] + [t];
    assert h + (b[1..] + [t]) == (h + b[1..]) + [t];
  }

  lemma SeamExtend(a: seq<Token>, b: seq<Token>, t: Token)
    requires b != [] && b[|b| - 1].kind == t.kind && b[|b| - 1].start == t.start
    ensures Seam(a, b[..|b| - 1] + [t]) == Grow(Seam(a, b), t.kind, b[|b| - 1].end, t.end)
  {
    hide Grow, Seam;
    var c := b[..|b| - 1] + [t];
    SeamIs(a, b);
    SeamIs(a, c);
    if |b| == 1 {
      GrowTwice(a, t.kind, t.start, b[0].end, t.end);
    } else {
      var h := Grow(a, b[0].kind, b[0].start, b[0].end);
      var hb := h + b[1..];
      GrowIs(hb, t.kind, b[|b| - 1].end, t.end);
      assert hb[|hb| - 1] == b[|b| - 1];
      assert hb[..|hb| - 1] == h + b[1..|b| - 1];
      assert c[1..] == b[1..|b| - 1] + [t];
      assert h + (b[1..|b| - 1] + [t]) == (h + b[1..|b| - 1]) + [t];
    }
  }

  lemma GrowIs(out: seq<Token>, k: Kind, from: nat, to: nat)
    ensures Grow(out, k, from, to) ==
            if out != [] && out[|out| - 1].kind == k
            then out[..|out| - 1] + [Token(k, out[|out| - 1].start, to)]
            else out + [Token(k, from, to)]
  {
  }

  /** The same in tokens: those of a, then those of t moved up by |a|, merged
      at most at a seam of one kind. */
  lemma TokenLocality(L: Lexis, a: string, t: string)
    requires L.Valid() && SentinelAlone(L, a) && Stopper(t)
    ensures Runs(Kinds(L, a + t)) == Seam(Runs(Kinds(L, a)), Shift(Runs(Kinds(L, t)), |a|))
  {
    LexicalLocality(L, a, t);
    RunsConcat(Kinds(L, a), Kinds(L, t));
  }
}
