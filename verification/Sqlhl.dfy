/** The never-failing tokenizer of internal/sqlhl/sqlhl.go. `Lead` says what one
    scanning step makes of the text that is left, `Kinds` gives every character
    its kind, and `Runs` turns kinds into tokens. The Scanner class is the
    imperative scanner, proved to produce exactly Runs(Kinds(src)). */
module Sqlhl {
  import opened Text

  datatype Kind =
    Plain | Keyword | Ident | QuotedIdent | String | Number | Operator | Comment | Placeholder

  datatype Token = Token(kind: Kind, start: nat, end: nat) {
    function Text(src: string): string
      requires start <= end <= |src|
    {
      src[start..end]
    }
  }

  datatype Dialect = Generic | MySQL | Postgres | SQLite | DuckDB

  const AsciiDigits: set<char> := set c: char | '0' <= c <= '9'
  const HexDigits: set<char> := set c: char | '0' <= c <= '9' || 'a' <= c <= 'f' || 'A' <= c <= 'F'

  predicate IsAsciiLetter(c: char) { 'a' <= c <= 'z' || 'A' <= c <= 'Z' }
  predicate IsAsciiSpace(c: char) { c == ' ' || '\t' <= c <= '\r' }

  /** What the scanner knows about characters and words: the dialect, Unicode's
      spaces, letters and digits, the words (in every spelling) that upper-case
      to one of the dialect's keywords, and the letters that make a string of
      the quote after them, with those among them that let it escape. */
  datatype Lexis = Lexis(d: Dialect, space: set<char>, letter: set<char>, digit: set<char>, kw: set<string>,
                         prefix: set<char>, escaping: set<char>) {

    /** The classes are disjoint and agree with ASCII where ASCII decides. */
    ghost predicate Valid() {
      && space !! letter && space !! digit && letter !! digit
      && forall c: char | c < '\U{0080}' ::
           && (c in space <==> IsAsciiSpace(c))
           && (c in letter <==> IsAsciiLetter(c))
           && (c in digit <==> '0' <= c <= '9')
    }

    predicate IdentStart(c: char) { c == '_' || c in letter }

    /** The characters an identifier may go on with. */
    function IdentPart(): set<char> { letter + digit + {'_', '$'} }

    predicate Nests() { d == Postgres || d == DuckDB }
    predicate Dollars() { d == Postgres || d == DuckDB }
    predicate Backslashes() { d == MySQL }
  }

  /** The character at offset i, NUL past the end. */
  function At(s: string, i: nat): char { if i < |s| then s[i] else '\0' }

  predicate DigitAt(s: string, i: nat) { i < |s| && s[i] in AsciiDigits }
  predicate StartAt(L: Lexis, s: string, i: nat) { i < |s| && L.IdentStart(s[i]) }

  /** One scanning step: a kind and how many characters it takes. */
  datatype Lexeme = Lexeme(kind: Kind, len: nat)

  function ExponentEnd(s: string, p: nat): (n: nat)
    requires p <= |s|
    ensures p <= n <= |s|
  {
    if At(s, p) == 'e' || At(s, p) == 'E' then
      var k := if At(s, p + 1) == '+' || At(s, p + 1) == '-' then p + 2 else p + 1;
      if DigitAt(s, k) then k + Run(AsciiDigits, s[k..]) else p
    else p
  }

  function FractionEnd(s: string, p: nat): (n: nat)
    requires p <= |s|
    ensures p <= n <= |s|
  {
    if At(s, p) == '.' && p < |s| then p + 1 + Run(AsciiDigits, s[p + 1..]) else p
  }

  /** Hex, decimals and exponents. It is 0 for a digit that is not ASCII. */
  function NumberLen(s: string): (n: nat)
    requires s != []
    ensures n <= |s|
  {
    if s[0] == '0' && (At(s, 1) == 'x' || At(s, 1) == 'X') && |s| > 1 then
      2 + Run(HexDigits, s[2..])
    else
      ExponentEnd(s, FractionEnd(s, Run(AsciiDigits, s)))
  }

  /** Reading on from an offset is reading the text from there. */
  lemma ExponentShift(s: string, i: nat, p: nat)
    requires i + p <= |s|
    ensures ExponentEnd(s, i + p) == i + ExponentEnd(s[i..], p)
  {
    var r := s[i..];
    assert forall k: nat :: At(r, k) == At(s, i + k);
    assert forall k: nat | i + k <= |s| :: r[k..] == s[i + k..];
  }

  lemma AtOffset(s: string, i: nat, j: nat)
    requires i <= |s|
    ensures At(s[i..], j) == At(s, i + j) && (DigitAt(s[i..], j) <==> DigitAt(s, i + j))
  {
  }

  /** The three things a dollar sign can start. */
  function DollarLead(L: Lexis, s: string): (r: Lexeme)
    requires s != [] && s[0] == '$'
    ensures 1 <= r.len <= |s|
  {
    if !L.Dollars() then Lexeme(Operator, 1)
    else if DigitAt(s, 1) then Lexeme(Placeholder, 1 + Run(AsciiDigits, s[1..]))
    else
      var j := 1 + Run(L.IdentPart() - {'$'}, s[1..]);
      if j == |s| || s[j] != '$' then Lexeme(Operator, 1)
      else Lexeme(String, j + 1 + TagBody(s[j + 1..], s[..j + 1]))
  }

  /** stringPrefixes, in both cases. The tokenizer has backslashes escape after
      every one of them. */
  const CODED_PREFIXES: set<char> := {'E', 'X', 'B', 'N', 'e', 'x', 'b', 'n'}

  predicate Coded(L: Lexis) { L.prefix == L.escaping == CODED_PREFIXES }

  predicate IsStringPrefix(L: Lexis, word: string) { |word| == 1 && word[0] in L.prefix }

  function WordLead(L: Lexis, s: string): (r: Lexeme)
    requires s != [] && L.IdentStart(s[0])
    ensures 1 <= r.len <= |s|
  {
    var end := Run(L.IdentPart(), s);
    var word := s[..end];
    if IsStringPrefix(L, word) && At(s, end) == '\'' && end < |s| then
      Lexeme(String, end + 1 + QuotedBody(s[end + 1..], '\'', word[0] in L.escaping))
    else Lexeme(if word in L.kw then Keyword else Ident, end)
  }

  /** `?`, `:` and MySQL's `@`. */
  function HoleLead(L: Lexis, s: string): (r: Lexeme)
    requires s != [] && (s[0] == '?' || s[0] == ':' || s[0] == '@')
    ensures 1 <= r.len <= |s|
  {
    if s[0] == '?' then Lexeme(Placeholder, 1 + Run(L.IdentPart(), s[1..]))
    else if s[0] == ':' then
      if At(s, 1) == ':' then Lexeme(Operator, 2)
      else if StartAt(L, s, 1) || DigitAt(s, 1) then Lexeme(Placeholder, 1 + Run(L.IdentPart(), s[1..]))
      else Lexeme(Operator, 1)
    else
      var j := if At(s, 1) == '@' then 2 else 1;
      if StartAt(L, s, j) then Lexeme(Placeholder, j + Run(L.IdentPart(), s[j..]))
      else Lexeme(Operator, 1)
  }

  function Lead(L: Lexis, s: string): (r: Lexeme)
    requires s != []
    ensures 1 <= r.len <= |s|
  {
    var c := s[0];
    if c in L.space then Lexeme(Plain, Run(L.space, s))
    else if c == '-' && At(s, 1) == '-' then Lexeme(Comment, IndexOrEnd(s, '\n'))
    else if c == '#' && L.d == MySQL then Lexeme(Comment, IndexOrEnd(s, '\n'))
    else if c == '/' && At(s, 1) == '*' then Lexeme(Comment, 2 + BlockBody(s[2..], 1, L.Nests()))
    else if c == '\'' then Lexeme(String, 1 + QuotedBody(s[1..], '\'', L.Backslashes()))
    else if c == '"' then
      Lexeme(if L.d == MySQL then String else QuotedIdent, 1 + QuotedBody(s[1..], '"', L.Backslashes()))
    else if c == '`' then Lexeme(QuotedIdent, 1 + QuotedBody(s[1..], '`', false))
    else if c == '$' then DollarLead(L, s)
    else if c == '?' || c == ':' || (c == '@' && L.d == MySQL) then HoleLead(L, s)
    else if c in L.digit || (c == '.' && DigitAt(s, 1)) then
      Lexeme(Number, if NumberLen(s) == 0 then 1 else NumberLen(s))
    else if L.IdentStart(c) then WordLead(L, s)
    else Lexeme(Operator, 1)
  }

  /** The kind of every character: sqlhl.Kinds. */
  function Kinds(L: Lexis, s: string): (ks: seq<Kind>)
    ensures |ks| == |s|
  {
    if s == [] then []
    else var x := Lead(L, s); Rep(x.kind, x.len) + Kinds(L, s[x.len..])
  }

  /** done holds the kinds of src[..i]: with what scanning the rest would give
      it is the whole answer. */
  ghost predicate Scanned(L: Lexis, src: string, done: seq<Kind>, i: nat) {
    |done| == i <= |src| && Kinds(L, src) == done + Kinds(L, src[i..])
  }

  lemma ScannedStart(L: Lexis, src: string)
    ensures Scanned(L, src, [], 0)
  {
    assert src[0..] == src;
  }

  lemma ScannedEnd(L: Lexis, src: string, done: seq<Kind>)
    requires Scanned(L, src, done, |src|)
    ensures done == Kinds(L, src)
  {
    assert done + [] == done;
  }

  /** Scanning one lexeme moves it from what is left to what is done. */
  lemma ScannedStep(L: Lexis, src: string, done: seq<Kind>, i: nat)
    requires Scanned(L, src, done, i) && i < |src|
    ensures var x := Lead(L, src[i..]); Scanned(L, src, done + Rep(x.kind, x.len), i + x.len)
  {
    hide Lead;
    var x := Lead(L, src[i..]);
    var k, rest := Rep(x.kind, x.len), src[i + x.len..];
    assert src[i..][x.len..] == rest;
    assert Kinds(L, src[i..]) == k + Kinds(L, rest);
    assert done + (k + Kinds(L, rest)) == (done + k) + Kinds(L, rest);
  }

  /** One more run of kind k, from `from` to `to`: it extends the last token
      when that has the same kind, and is a token of its own otherwise. */
  function Grow(out: seq<Token>, k: Kind, from: nat, to: nat): seq<Token> {
    var n := |out|;
    if n > 0 && out[n - 1].kind == k then out[..n - 1] + [Token(k, out[n - 1].start, to)]
    else out + [Token(k, from, to)]
  }

  /** The maximal runs of equal kinds, as tokens. */
  function Runs(ks: seq<Kind>): (out: seq<Token>)
    ensures ks == [] <==> out == []
    ensures out != [] ==> out[|out| - 1].end == |ks| && out[|out| - 1].kind == ks[|ks| - 1]
  {
    if ks == [] then []
    else
      var n := |ks| - 1;
      Grow(Runs(ks[..n]), ks[n], n, n + 1)
  }

  lemma RunsSnoc(ks: seq<Kind>, k: Kind)
    ensures Runs(ks + [k]) == Grow(Runs(ks), k, |ks|, |ks| + 1)
  {
    hide Grow;
    var all := ks + [k];
    assert all[..|ks|] == ks;
  }

  /** Appending a run of one kind extends the last token or adds one. */
  lemma {:induction false} RunsAppend(ks: seq<Kind>, k: Kind, n: nat)
    requires n >= 1
    ensures Runs(ks + Rep(k, n)) == Grow(Runs(ks), k, |ks|, |ks| + n)
  {
    hide Runs, Grow;
    if n == 1 {
      assert Rep(k, 1) == [k];
      RunsSnoc(ks, k);
    } else {
      var less := ks + Rep(k, n - 1);
      assert ks + Rep(k, n) == less + [k];
      RunsSnoc(less, k);
      RunsAppend(ks, k, n - 1);
      GrowTwice(Runs(ks), k, |ks|, |less|, |less| + 1);
    }
  }

  lemma GrowTwice(out: seq<Token>, k: Kind, from: nat, mid: nat, to: nat)
    ensures Grow(Grow(out, k, from, mid), k, mid, to) == Grow(out, k, from, to)
  {
    var n := |out|;
    if n > 0 && out[n - 1].kind == k {
      assert (out[..n - 1] + [Token(k, out[n - 1].start, mid)])[..n - 1] == out[..n - 1];
    } else {
      assert (out + [Token(k, from, mid)])[..n] == out;
    }
  }

  /** No gap, no overlap, no empty token, no two neighbours of one kind. */
  ghost predicate Chained(out: seq<Token>, n: nat) {
    && (forall i :: 0 <= i < |out| ==> out[i].start < out[i].end <= n)
    && (forall i :: 0 <= i < |out| - 1 ==> out[i].end == out[i + 1].start && out[i].kind != out[i + 1].kind)
    && (out != [] ==> out[0].start == 0)
    && (if out == [] then n == 0 else out[|out| - 1].end == n)
  }

  /** Every character is in the token of its kind. */
  ghost predicate KindsAgree(out: seq<Token>, ks: seq<Kind>) {
    forall i, p :: 0 <= i < |out| && out[i].start <= p < out[i].end && p < |ks| ==> ks[p] == out[i].kind
  }

  /** What a token list owes the characters it was made from. */
  ghost predicate Tiles(out: seq<Token>, ks: seq<Kind>) {
    Chained(out, |ks|) && KindsAgree(out, ks)
  }

  lemma GrowChained(out: seq<Token>, k: Kind, n: nat)
    requires Chained(out, n)
    ensures Chained(Grow(out, k, n, n + 1), n + 1)
  {
  }

  lemma {:induction false} RunsChained(ks: seq<Kind>)
    ensures Chained(Runs(ks), |ks|)
  {
    if ks != [] {
      hide Grow, Chained;
      var n := |ks| - 1;
      RunsChained(ks[..n]);
      GrowChained(Runs(ks[..n]), ks[n], n);
    }
  }

  lemma GrowKindsAgree(out: seq<Token>, ks: seq<Kind>, k: Kind)
    requires Chained(out, |ks|) && KindsAgree(out, ks)
    ensures KindsAgree(Grow(out, k, |ks|, |ks| + 1), ks + [k])
  {
    var n, more, all := |out|, Grow(out, k, |ks|, |ks| + 1), ks + [k];
    forall i, p | 0 <= i < |more| && more[i].start <= p < more[i].end && p < |all|
      ensures all[p] == more[i].kind
    {
      if p < |ks| {
        assert i < n && out[i].start <= p < out[i].end && ks[p] == out[i].kind;
      }
    }
  }

  lemma {:induction false} RunsKindsAgree(ks: seq<Kind>)
    ensures KindsAgree(Runs(ks), ks)
  {
    if ks != [] {
      hide Grow, Chained, KindsAgree;
      var n := |ks| - 1;
      RunsChained(ks[..n]);
      RunsKindsAgree(ks[..n]);
      GrowKindsAgree(Runs(ks[..n]), ks[..n], ks[n]);
      assert ks[..n] + [ks[n]] == ks;
    }
  }

  lemma RunsTile(ks: seq<Kind>)
    ensures Tiles(Runs(ks), ks)
  {
    RunsChained(ks);
    RunsKindsAgree(ks);
  }

  /** The texts of the first n tokens, put together. */
  function Reassembled(src: string, out: seq<Token>, n: nat): string
    requires n <= |out| && forall i :: 0 <= i < n ==> out[i].start <= out[i].end <= |src|
  {
    if n == 0 then "" else Reassembled(src, out, n - 1) + out[n - 1].Text(src)
  }

  lemma {:induction false} Reassembles(src: string, out: seq<Token>, n: nat)
    requires Chained(out, |src|) && 0 < n <= |out|
    ensures Reassembled(src, out, n) == src[..out[n - 1].end]
  {
    if n == 1 {
      assert Reassembled(src, out, 0) == "";
    } else {
      Reassembles(src, out, n - 1);
      assert out[n - 2].end == out[n - 1].start;
    }
  }

  /** A tiling is determined by the kinds of the characters, so the tokens of
      a source are the only ones with these properties. */
  lemma {:induction false} TilingUnique(a: seq<Token>, b: seq<Token>, ks: seq<Kind>, i: nat)
    requires Tiles(a, ks) && Tiles(b, ks) && i < |a|
    ensures i < |b| && a[i] == b[i]
  {
    if i > 0 {
      TilingUnique(a, b, ks, i - 1);
      assert a[i - 1].end == a[i].start;
      assert i < |b|;
      assert b[i - 1].end == b[i].start;
    }
    assert ks[a[i].start] == a[i].kind == b[i].kind;
    EndNotBefore(a, b, ks, i);
    EndNotBefore(b, a, ks, i);
  }

  lemma EndNotBefore(a: seq<Token>, b: seq<Token>, ks: seq<Kind>, i: nat)
    requires Tiles(a, ks) && Tiles(b, ks) && i < |a| && i < |b|
    requires a[i].start == b[i].start && a[i].kind == b[i].kind
    ensures a[i].end >= b[i].end
  {
    assert i < |a| - 1 ==> a[i].end == a[i + 1].start && ks[a[i + 1].start] == a[i + 1].kind != a[i].kind;
  }

  /** The scanner: a position, the tokens so far, and the end-finders. */
  class Scanner {
    const L: Lexis
    const src: string
    var i: nat
    var out: seq<Token>
    ghost var done: seq<Kind>  // the kinds of src[..i]

    ghost predicate Valid()
      reads this
    {
      out == Runs(done) && Scanned(L, src, done, i)
    }

    constructor (L: Lexis, src: string)
      ensures Valid() && this.L == L && this.src == src && i == 0
    {
      this.L, this.src, this.i, this.out, this.done := L, src, 0, [], [];
      ScannedStart(L, src);
    }

    /** Records a token that ends at `end`, clamped into (i, |src|]. */
    method Emit(k: Kind, end: nat)
      requires |done| == i < |src| && out == Runs(done)
      modifies `i, `out, `done
      ensures i == (if end > |src| then |src| else if end <= old(i) then old(i) + 1 else end)
      ensures done == old(done) + Rep(k, i - old(i)) && |done| == i <= |src|
      ensures out == Runs(done)
    {
      hide Runs;
      var e := if end > |src| then |src| else if end <= i then i + 1 else end;
      RunsAppend(done, k, e - i);
      done := done + Rep(k, e - i);
      var n := |out|;
      if n > 0 && out[n - 1].kind == k && out[n - 1].end == i {
        out := out[..n - 1] + [out[n - 1].(end := e)];
      } else {
        out := out + [Token(k, i, e)];
      }
      i := e;
    }

    /** The end of the run of cs that starts at pos: spaceEnd, identEnd and
        the digit loops. */
    method RunEnd(cs: set<char>, pos: nat) returns (j: nat)
      requires pos <= |src|
      ensures j == pos + Run(cs, src[pos..])
    {
      j := pos;
      while j < |src|
        invariant pos <= j <= |src|
        invariant j + Run(cs, src[j..]) == pos + Run(cs, src[pos..])
      {
        if src[j] !in cs {
          break;
        }
        assert src[j..][1..] == src[j + 1..];
        j := j + 1;
      }
    }

    method LineEnd(pos: nat) returns (j: nat)
      requires pos <= |src|
      ensures j == pos + IndexOrEnd(src[pos..], '\n')
    {
      j := pos;
      while j < |src| && src[j] != '\n'
        invariant pos <= j <= |src|
        invariant j + IndexOrEnd(src[j..], '\n') == pos + IndexOrEnd(src[pos..], '\n')
      {
        assert src[j..][1..] == src[j + 1..];
        j := j + 1;
      }
    }

    method BlockCommentEnd() returns (j: nat)
      requires i + 2 <= |src|
      ensures j == i + 2 + BlockBody(src[i + 2..], 1, L.Nests())
    {
      var depth := 1;
      j := i + 2;
      while j < |src|
        invariant i + 2 <= j <= |src| && depth >= 1
        invariant j + BlockBody(src[j..], depth, L.Nests()) == i + 2 + BlockBody(src[i + 2..], 1, L.Nests())
        decreases |src| - j
      {
        ghost var r := src[j..];
        assert r[0] == src[j] && At(r, 1) == At(src, j + 1) && r[1..] == src[j + 1..];
        if src[j] == '*' && At(src, j + 1) == '/' {
          assert r[2..] == src[j + 2..];
          depth := depth - 1;
          j := j + 2;
          if depth == 0 {
            return;
          }
        } else if L.Nests() && src[j] == '/' && At(src, j + 1) == '*' {
          assert r[2..] == src[j + 2..];
          depth := depth + 1;
          j := j + 2;
        } else {
          j := j + 1;
        }
      }
    }

    method QuotedEnd(pos: nat, q: char, backslash: bool) returns (end: nat)
      requires pos < |src|
      requires q != '\0'
      ensures end == pos + 1 + QuotedBody(src[pos + 1..], q, backslash)
    {
      var j := pos + 1;
      while j < |src|
        invariant pos + 1 <= j <= |src| + 1
        invariant j <= |src| ==> j + QuotedBody(src[j..], q, backslash) == pos + 1 + QuotedBody(src[pos + 1..], q, backslash)
        invariant j == |src| + 1 ==> |src| == pos + 1 + QuotedBody(src[pos + 1..], q, backslash)
        decreases |src| - j
      {
        assert src[j..][1..] == src[j + 1..];
        assert j + 2 <= |src| ==> src[j..][2..] == src[j + 2..];
        if backslash && src[j] == '\\' {
          j := j + 2;
        } else if src[j] == q && At(src, j + 1) == q {
          j := j + 2;
        } else if src[j] == q {
          return j + 1;
        } else {
          j := j + 1;
        }
      }
      return |src|;
    }

    /** Finds tag at or after pos: strings.Index. */
    method TagEnd(pos: nat, tag: string) returns (end: nat)
      requires pos <= |src| && tag != []
      ensures end == pos + TagBody(src[pos..], tag)
    {
      var j := pos;
      while j < |src|
        invariant pos <= j <= |src|
        invariant j + TagBody(src[j..], tag) == pos + TagBody(src[pos..], tag)
      {
        if tag <= src[j..] {
          return j + |tag|;
        }
        assert src[j..][1..] == src[j + 1..];
        j := j + 1;
      }
      return |src|;
    }

    method FractionEndAt(pos: nat) returns (j: nat)
      requires i <= pos <= |src|
      ensures j == i + FractionEnd(src[i..], pos - i)
    {
      ghost var s := src[i..];
      j := pos;
      if At(src, j) == '.' {
        assert s[pos - i + 1..] == src[j + 1..];
        j := RunEnd(AsciiDigits, j + 1);
      }
    }

    method ExponentEndAt(pos: nat) returns (j: nat)
      requires pos <= |src|
      ensures j == ExponentEnd(src, pos)
    {
      if At(src, pos) != 'e' && At(src, pos) != 'E' {
        return pos;
      }
      var k := if At(src, pos + 1) == '+' || At(src, pos + 1) == '-' then pos + 2 else pos + 1;
      if !DigitAt(src, k) {
        return pos;
      }
      j := RunEnd(AsciiDigits, k);
    }

    method NumberEnd() returns (j: nat)
      requires i < |src|
      ensures j == i + NumberLen(src[i..])
    {
      hide FractionEnd, ExponentEnd;
      ghost var s := src[i..];
      if src[i] == '0' && (At(src, i + 1) == 'x' || At(src, i + 1) == 'X') {
        assert s[2..] == src[i + 2..];
        j := RunEnd(HexDigits, i + 2);
        return;
      }
      j := RunEnd(AsciiDigits, i);
      j := FractionEndAt(j);
      ExponentShift(src, i, j - i);
      j := ExponentEndAt(j);
    }

    method NextDollar() returns (k: Kind, e: nat)
      requires i < |src| && src[i] == '$'
      ensures e >= i && Lexeme(k, e - i) == DollarLead(L, src[i..])
    {
      hide Run, TagBody;
      ghost var s := src[i..];
      if L.d != Postgres && L.d != DuckDB {
        return Operator, i + 1;
      }
      assert s[1..] == src[i + 1..];
      if DigitAt(src, i + 1) {
        e := RunEnd(AsciiDigits, i + 1);
        return Placeholder, e;
      }
      var j := RunEnd(L.IdentPart() - {'$'}, i + 1);
      if At(src, j) != '$' {
        return Operator, i + 1;
      }
      var tag := src[i..j + 1];
      assert src[j] == s[j - i] && tag == s[..j - i + 1] && src[j + 1..] == s[j - i + 1..];
      e := TagEnd(j + 1, tag);
      return String, e;
    }

    method NextWord() returns (k: Kind, e: nat)
      requires i < |src| && L.IdentStart(src[i])
      ensures e >= i && Lexeme(k, e - i) == WordLead(L, src[i..])
    {
      ghost var s := src[i..];
      var end := RunEnd(L.IdentPart(), i);
      var word := src[i..end];
      assert word == s[..end - i];
      if IsStringPrefix(L, word) && At(src, end) == '\'' {
        assert s[end - i + 1..] == src[end + 1..];
        e := QuotedEnd(end, '\'', word[0] in L.escaping);
        return String, e;
      }
      return if word in L.kw then Keyword else Ident, end;
    }

    /** `?`, `:` and MySQL's `@`: a placeholder, a cast or an operator. */
    method NextHole() returns (k: Kind, e: nat)
      requires i < |src|
      requires src[i] == '?' || src[i] == ':' || (src[i] == '@' && L.d == MySQL)
      ensures e >= i && Lexeme(k, e - i) == HoleLead(L, src[i..])
    {
      ghost var s := src[i..];
      assert s[1..] == src[i + 1..];
      assert At(src, i + 1) == At(s, 1);
      if src[i] == '?' {
        e := RunEnd(L.IdentPart(), i + 1);
        return Placeholder, e;
      }
      if src[i] == ':' {
        if At(src, i + 1) == ':' {
          return Operator, i + 2;
        }
        if StartAt(L, src, i + 1) || DigitAt(src, i + 1) {
          e := RunEnd(L.IdentPart(), i + 1);
          return Placeholder, e;
        }
        return Operator, i + 1;
      }
      var j := if At(src, i + 1) == '@' then i + 2 else i + 1;
      if StartAt(L, src, j) {
        assert src[j..] == s[j - i..];
        e := RunEnd(L.IdentPart(), j);
        return Placeholder, e;
      }
      return Operator, i + 1;
    }

    /** The kind and the end of the next token; scan hands them to emit. */
    method Next() returns (k: Kind, e: nat)
      requires i < |src|
      ensures var x := Lead(L, src[i..]); k == x.kind && (e == i + x.len || (e == i && x.len == 1))
    {
      ghost var s := src[i..];
      var r := src[i];
      AtOffset(src, i, 1);
      hide At, DigitAt;
      hide DollarLead, WordLead, HoleLead, NumberLen, QuotedBody, BlockBody, IndexOrEnd, Run, TagBody, Scanned, Runs, Kinds;
      assert s[1..] == src[i + 1..];
      assert |s| > 1 ==> s[2..] == src[i + 2..];
      if r in L.space {
        e := RunEnd(L.space, i);
        return Plain, e;
      }
      if r == '-' && At(src, i + 1) == '-' {
        e := LineEnd(i);
        return Comment, e;
      }
      if r == '#' && L.d == MySQL {
        e := LineEnd(i);
        return Comment, e;
      }
      if r == '/' && At(src, i + 1) == '*' {
        e := BlockCommentEnd();
        return Comment, e;
      }
      if r == '\'' {
        e := QuotedEnd(i, '\'', L.Backslashes());
        return String, e;
      }
      if r == '"' {
        k := if L.d == MySQL then String else QuotedIdent;
        e := QuotedEnd(i, '"', k == String && L.Backslashes());
        return;
      }
      if r == '`' {
        e := QuotedEnd(i, '`', false);
        return QuotedIdent, e;
      }
      if r == '$' {
        k, e := NextDollar();
        return;
      }
      if r == '?' || r == ':' || (r == '@' && L.d == MySQL) {
        k, e := NextHole();
        return;
      }
      if r in L.digit || (r == '.' && DigitAt(src, i + 1)) {
        e := NumberEnd();
        return Number, e;
      }
      if L.IdentStart(r) {
        k, e := NextWord();
        return;
      }
      return Operator, i + 1;
    }

    method Scan()
      requires Valid() && i == 0
      modifies this
      ensures Valid() && i == |src|
      ensures out == Runs(Kinds(L, src))
    {
      hide Lead;
      while i < |src|
        invariant Valid()
      {
        ghost var x := Lead(L, src[i..]);
        ScannedStep(L, src, done, i);
        var k, e := Next();
        Emit(k, e);
      }
      ScannedEnd(L, src, done);
    }
  }

  method Tokenize(L: Lexis, src: string) returns (out: seq<Token>)
    ensures out == Runs(Kinds(L, src))
  {
    var s := new Scanner(L, src);
    s.Scan();
    out := s.out;
  }

  /** One kind per character, for a renderer. */
  method KindsOf(L: Lexis, src: string) returns (ks: seq<Kind>)
    ensures ks == Kinds(L, src)
  {
    var toks := Tokenize(L, src);
    ghost var all := Kinds(L, src);
    RunsTile(all);
    ks := [];
    for n := 0 to |toks|
      invariant |ks| == (if n == 0 then 0 else toks[n - 1].end) <= |all|
      invariant ks == all[..|ks|]
    {
      assert toks[n].start == |ks| && toks[n].end <= |all|;
      ks := ks + Rep(toks[n].kind, toks[n].end - toks[n].start);
    }
    assert all[..|all|] == all;
  }

  /** Tokenize loses nothing and says nothing twice: its tokens tile the source
      and put it back together. */
  lemma TokensReassemble(L: Lexis, src: string)
    ensures var out := Runs(Kinds(L, src));
            && Tiles(out, Kinds(L, src))
            && Reassembled(src, out, |out|) == src
  {
    var out := Runs(Kinds(L, src));
    RunsTile(Kinds(L, src));
    if src != [] {
      Reassembles(src, out, |out|);
      assert src[..|src|] == src;
    }
  }
}
