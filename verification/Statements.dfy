/** The script splitter of internal/db/statements.go: a second lexer, which only
    knows where quoted runs, comments and dollar-quoted bodies end. */
module Statements {
  import opened Text
  import opened Literal

  /** One statement and where it sits in the script. */
  datatype Span = Span(sql: string, start: nat, end: nat)

  const TagChars: set<char> := set c: char | c == '_' || 'a' <= c <= 'z' || 'A' <= c <= 'Z' || '0' <= c <= '9'

  const Spaces: set<char> := {' ', '\t', '\n', '\r', '\U{000B}', '\U{000C}'}

  /** The length of the dollar tag s starts with, 0 when it starts with none. */
  function TagLen(s: string): (n: nat)
    requires s != [] && s[0] == '$'
    ensures n <= |s| && n != 1
  {
    var j := 1 + Run(TagChars, s[1..]);
    if j < |s| && s[j] == '$' then j + 1 else 0
  }

  predicate Starts(s: string, a: char, b: char) { |s| > 1 && s[0] == a && s[1] == b }

  /** How much of s the splitter steps over at once. A separator is a step of
      its own. */
  function Item(e: Engine, s: string): (n: nat)
    requires s != []
    ensures 1 <= n <= |s|
  {
    var c := s[0];
    if Starts(s, '-', '-') || (e.MySQLish() && c == '#') then IndexOrEnd(s, '\n')
    else if Starts(s, '/', '*') then 2 + BlockBody(s[2..], 1, false)
    else if c == '\'' then 1 + QuotedBody(s[1..], '\'', e.MySQLish())
    else if c == '"' then 1 + QuotedBody(s[1..], '"', false)
    else if e.MySQLish() && c == '`' then 1 + QuotedBody(s[1..], '`', false)
    else if e == EnginePostgres && c == '$' && TagLen(s) > 0 then
      TagLen(s) + TagBody(s[TagLen(s)..], s[..TagLen(s)])
    else 1
  }

  /** The offset of the first separator, or |s|. */
  function FirstSep(e: Engine, s: string): (n: nat)
    ensures n <= |s|
    ensures n < |s| ==> s[n] == ';'
    decreases |s|
  {
    if s == [] || s[0] == ';' then 0
    else Item(e, s) + FirstSep(e, s[Item(e, s)..])
  }

  /** What `push` keeps of r[lo..hi]: nothing, or one trimmed span. */
  function Push(s: string, base: nat): seq<Span> {
    var lead := Run(Spaces, s);
    var t := Trim(Spaces, s);
    if t == [] then [] else [Span(t, base + lead, base + lead + |t|)]
  }

  /** The statements of s, which starts at offset `base` of the script. */
  function Split(e: Engine, s: string, base: nat): seq<Span>
    decreases |s|
  {
    var n := FirstSep(e, s);
    Push(s[..n], base) + if n < |s| then Split(e, s[n + 1..], base + n + 1) else []
  }

  // ---------- the loops ----------

  method SkipToEOL(r: string, i: nat) returns (j: nat)
    requires i <= |r|
    ensures j == i + IndexOrEnd(r[i..], '\n')
  {
    j := i;
    while j < |r| && r[j] != '\n'
      invariant i <= j <= |r|
      invariant j + IndexOrEnd(r[j..], '\n') == i + IndexOrEnd(r[i..], '\n')
    {
      assert r[j..][1..] == r[j + 1..];
      j := j + 1;
    }
  }

  method SkipBlockComment(r: string, i: nat) returns (j: nat)
    requires i + 2 <= |r|
    ensures j == i + 2 + BlockBody(r[i + 2..], 1, false)
  {
    j := i + 2;
    while j + 1 < |r|
      invariant i + 2 <= j <= |r|
      invariant j + BlockBody(r[j..], 1, false) == i + 2 + BlockBody(r[i + 2..], 1, false)
    {
      if r[j] == '*' && r[j + 1] == '/' {
        return j + 2;
      }
      assert r[j..][1..] == r[j + 1..];
      j := j + 1;
    }
    if j < |r| {
      assert r[j..][1..] == [];
    }
    return |r|;
  }

  method SkipQuoted(r: string, i0: nat, quote: char, backslash: bool) returns (j: nat)
    requires i0 < |r|
    ensures j == i0 + 1 + QuotedBody(r[i0 + 1..], quote, backslash)
  {
    var i := i0 + 1;
    while i < |r|
      invariant i0 + 1 <= i <= |r| + 1
      invariant i <= |r| ==> i + QuotedBody(r[i..], quote, backslash) == i0 + 1 + QuotedBody(r[i0 + 1..], quote, backslash)
      invariant i == |r| + 1 ==> |r| == i0 + 1 + QuotedBody(r[i0 + 1..], quote, backslash)
      decreases |r| - i
    {
      assert r[i..] == [r[i]] + r[i + 1..];
      assert i + 2 <= |r| ==> r[i..][2..] == r[i + 2..];
      if backslash && r[i] == '\\' {
        i := i + 2;
      } else if r[i] == quote {
        if i + 1 < |r| && r[i + 1] == quote {
          i := i + 2;
          continue;
        }
        return i + 1;
      } else {
        i := i + 1;
      }
    }
    return |r|;
  }

  /** Reads a `$tag$` delimiter at i: its end, or i when there is none. */
  method DollarTag(r: string, i: nat) returns (after: nat)
    requires i < |r| && r[i] == '$'
    ensures after == i + TagLen(r[i..])
  {
    var j := i + 1;
    assert r[i..][1..] == r[i + 1..];
    while j < |r| && r[j] in TagChars
      invariant i + 1 <= j <= |r|
      invariant j + Run(TagChars, r[j..]) == i + 1 + Run(TagChars, r[i + 1..])
    {
      assert r[j..][1..] == r[j + 1..];
      j := j + 1;
    }
    if j >= |r| || r[j] != '$' {
      return i;
    }
    return j + 1;
  }

  /** A text starts with a given tag exactly when that is the tag read there. */
  lemma TagReadIsPrefix(tag: string, s: string)
    requires tag != [] && tag[0] == '$' && TagLen(tag) == |tag|
    requires s != [] && s[0] == '$'
    ensures tag <= s <==> TagLen(s) > 0 && s[..TagLen(s)] == tag
  {
    var n := |tag|;
    assert n >= 2;
    var j := Run(TagChars, tag[1..]);
    assert j + 2 == n && tag[n - 1] == '$' && '$' !in TagChars;
    if tag <= s {
      assert forall k :: 0 <= k < n ==> s[k] == tag[k];
      assert forall k :: 0 <= k < j ==> s[1..][k] == tag[1..][k];
      RunUnique(TagChars, s[1..], j);
    }
  }

  /** The search for the closing tag. */
  method FindClose(r: string, after: nat, tag: string) returns (end: nat)
    requires after <= |r| && tag != [] && tag[0] == '$' && TagLen(tag) == |tag|
    ensures end == after + TagBody(r[after..], tag)
  {
    hide TagLen;
    var j := after;
    while j < |r|
      invariant after <= j <= |r|
      invariant j + TagBody(r[j..], tag) == after + TagBody(r[after..], tag)
    {
      assert r[j..][1..] == r[j + 1..];
      if r[j] == '$' {
        TagReadIsPrefix(tag, r[j..]);
        var close := DollarTag(r, j);
        assert r[j..close] == r[j..][..close - j];
        if close > j && r[j..close] == tag {
          return close;
        }
      }
      j := j + 1;
    }
    return |r|;
  }

  method SkipDollarQuoted(r: string, i: nat) returns (end: nat)
    requires i < |r| && r[i] == '$'
    ensures var s := r[i..]; end == i + if TagLen(s) > 0 then TagLen(s) + TagBody(s[TagLen(s)..], s[..TagLen(s)]) else 1
  {
    hide TagBody;
    ghost var s := r[i..];
    var after := DollarTag(r, i);
    if after == i {
      return i + 1;
    }
    var tag := r[i..after];
    TagLenOfTag(s);
    hide TagLen;
    assert tag == s[..TagLen(s)] && r[after..] == s[TagLen(s)..];
    end := FindClose(r, after, tag);
  }

  lemma TagLenOfTag(s: string)
    requires s != [] && s[0] == '$' && TagLen(s) > 0
    ensures var t := s[..TagLen(s)]; t != [] && t[0] == '$' && TagLen(t) == |t|
  {
    var n := TagLen(s);
    var t := s[..n];
    var j := Run(TagChars, s[1..]);
    assert t[1..] == s[1..][..n - 1] && '$' !in TagChars;
    RunUnique(TagChars, t[1..], j);
  }

  /** The step of the switch at i. */
  method NextItem(e: Engine, r: string, i: nat) returns (j: nat)
    requires i < |r| && r[i] != ';'
    ensures j == i + Item(e, r[i..])
  {
    hide QuotedBody, BlockBody, IndexOrEnd, TagBody, TagLen;
    ghost var s := r[i..];
    var c := r[i];
    assert s[0] == c && s[1..] == r[i + 1..] && (|s| > 1 ==> s[1] == r[i + 1] && s[2..] == r[i + 2..]);
    if c == '-' && i + 1 < |r| && r[i + 1] == '-' {
      j := SkipToEOL(r, i);
    } else if e.MySQLish() && c == '#' {
      j := SkipToEOL(r, i);
    } else if c == '/' && i + 1 < |r| && r[i + 1] == '*' {
      j := SkipBlockComment(r, i);
    } else if c == '\'' {
      j := SkipQuoted(r, i, '\'', e.MySQLish());
    } else if c == '"' {
      j := SkipQuoted(r, i, '"', false);
    } else if e.MySQLish() && c == '`' {
      j := SkipQuoted(r, i, '`', false);
    } else if e == EnginePostgres && c == '$' {
      j := SkipDollarQuoted(r, i);
    } else {
      j := i + 1;
    }
  }

  method TrimStart(r: string, start: nat, end: nat) returns (lo: nat)
    requires start <= end <= |r|
    ensures lo == start + Run(Spaces, r[start..end])
  {
    lo := start;
    while lo < end && r[lo] in Spaces
      invariant start <= lo <= end
      invariant lo + Run(Spaces, r[lo..end]) == start + Run(Spaces, r[start..end])
    {
      assert r[lo..end][1..] == r[lo + 1..end];
      lo := lo + 1;
    }
  }

  method TrimEnd(r: string, lo: nat, end: nat) returns (hi: nat)
    requires lo <= end <= |r|
    ensures lo <= hi <= end && r[lo..hi] == TrimRight(Spaces, r[lo..end])
  {
    hide TrimRight;
    hi := end;
    while hi > lo && r[hi - 1] in Spaces
      invariant lo <= hi <= end
      invariant TrimRight(Spaces, r[lo..hi]) == TrimRight(Spaces, r[lo..end])
    {
      TrimRightStep(r[lo..hi]);
      assert r[lo..hi][..hi - lo - 1] == r[lo..hi - 1];
      hi := hi - 1;
    }
    TrimRightStep(r[lo..hi]);
  }

  lemma TrimRightStep(s: string)
    ensures TrimRight(Spaces, s) == if s != [] && s[|s| - 1] in Spaces then TrimRight(Spaces, s[..|s| - 1]) else s
  {
  }

  /** The push closure: trims r[start..end] and records it. */
  method PushSpan(r: string, start: nat, end: nat) returns (out: seq<Span>)
    requires start <= end <= |r|
    ensures out == Push(r[start..end], start)
  {
    hide Run, TrimRight;
    var lo := TrimStart(r, start, end);
    var hi := TrimEnd(r, lo, end);
    assert r[start..end][lo - start..] == r[lo..end];
    if lo < hi {
      return [Span(r[lo..hi], lo, hi)];
    }
    return [];
  }

  lemma SplitAtSep(e: Engine, r: string, start: nat, i: nat)
    requires start <= i < |r| && start + FirstSep(e, r[start..]) == i
    ensures Split(e, r[start..], start) == Push(r[start..i], start) + Split(e, r[i + 1..], i + 1)
  {
    hide Item, Push, FirstSep;
    assert r[start..][..i - start] == r[start..i] && r[start..][i - start + 1..] == r[i + 1..];
  }

  lemma SplitAtEnd(e: Engine, r: string, start: nat)
    requires start <= |r| && start + FirstSep(e, r[start..]) == |r|
    ensures Split(e, r[start..], start) == Push(r[start..|r|], start)
  {
    hide Item, Push, FirstSep;
    assert r[start..][..|r| - start] == r[start..|r|];
  }

  lemma FirstSepSkips(e: Engine, r: string, i: nat, j: nat)
    requires i < |r| && r[i] != ';' && j == i + Item(e, r[i..])
    ensures j + FirstSep(e, r[j..]) == i + FirstSep(e, r[i..])
  {
    hide Item;
    assert r[i..][j - i..] == r[j..];
  }

  /** SplitStatementSpans. */
  method SplitStatementSpans(e: Engine, script: string) returns (out: seq<Span>)
    ensures out == Split(e, script, 0)
  {
    hide Item, Push, Split;
    var r := script;
    out := [];
    var start, i := 0, 0;
    assert r[0..] == r;
    while i < |r|
      invariant 0 <= start <= i <= |r|
      invariant start + FirstSep(e, r[start..]) == i + FirstSep(e, r[i..])
      invariant out + Split(e, r[start..], start) == Split(e, script, 0)
      decreases |r| - i
    {
      if r[i] == ';' {
        SplitAtSep(e, r, start, i);
        var p := PushSpan(r, start, i);
        out := out + p;
        i := i + 1;
        start := i;
      } else {
        var j := NextItem(e, r, i);
        FirstSepSkips(e, r, i, j);
        i := j;
      }
    }
    SplitAtEnd(e, r, start);
    var p := PushSpan(r, start, |r|);
    out := out + p;
  }

  // ---------- lossless ----------

  predicate InSpan(out: seq<Span>, p: nat) {
    exists i :: 0 <= i < |out| && out[i].start <= p < out[i].end
  }

  /** A span covers the text it carries, and neither end is a space. */
  predicate Covers(script: string, s: Span) {
    && s.start < s.end <= |script|
    && s.sql == script[s.start..s.end]
    && script[s.start] !in Spaces && script[s.end - 1] !in Spaces
  }

  /** What the spans of script[from..] owe the script. */
  ghost predicate Lossless(script: string, out: seq<Span>, from: nat) {
    && (forall i :: 0 <= i < |out| ==> from <= out[i].start && Covers(script, out[i]))
    && (forall i, j :: 0 <= i < j < |out| ==> out[i].end < out[j].start)
    && (forall p :: from <= p < |script| && !InSpan(out, p) ==> script[p] in Spaces || script[p] == ';')
  }

  lemma TrimBounds(s: string)
    ensures var lead, t := Run(Spaces, s), Trim(Spaces, s);
            && lead + |t| <= |s| && t == s[lead..lead + |t|]
            && (t != [] ==> t[0] !in Spaces && t[|t| - 1] !in Spaces)
            && (forall i :: 0 <= i < |s| && (i < lead || i >= lead + |t|) ==> s[i] in Spaces)
  {
    hide Run, TrimRight;
    var lead, t := Run(Spaces, s), Trim(Spaces, s);
    var u := s[lead..];
    assert forall i :: lead <= i < |s| ==> s[i] == u[i - lead];
    assert t == u[..|t|] == s[lead..lead + |t|];
  }

  lemma PushCovers(script: string, from: nat, to: nat)
    requires from <= to <= |script|
    ensures var out := Push(script[from..to], from);
            && |out| <= 1
            && (forall i :: 0 <= i < |out| ==> from <= out[i].start && out[i].end <= to && Covers(script, out[i]))
            && (forall p :: from <= p < to && !InSpan(out, p) ==> script[p] in Spaces)
  {
    hide Run, Trim;
    var s := script[from..to];
    var lead, t := Run(Spaces, s), Trim(Spaces, s);
    TrimBounds(s);
    var out, a, b := Push(s, from), from + lead, from + lead + |t|;
    assert forall p :: from <= p < to ==> script[p] == s[p - from];
    if t != [] {
      assert out == [Span(t, a, b)];
      assert script[a..b] == s[lead..lead + |t|];
      forall p | from <= p < to && !InSpan(out, p)
        ensures script[p] in Spaces
      {
        assert !(out[0].start <= p < out[0].end);
        assert s[p - from] in Spaces;
      }
    } else {
      forall p | from <= p < to
        ensures script[p] in Spaces
      {
        assert s[p - from] in Spaces;
      }
    }
  }

  lemma LosslessOne(script: string, p: seq<Span>, from: nat)
    requires from <= |script| && |p| <= 1
    requires forall i :: 0 <= i < |p| ==> from <= p[i].start && Covers(script, p[i])
    requires forall q :: from <= q < |script| && !InSpan(p, q) ==> script[q] in Spaces
    ensures Lossless(script, p, from)
  {
  }

  /** Splitting is lossless: the spans are ordered and disjoint, each carries
      the trimmed text it covers, and everything outside them is white space or
      a separator. */
  lemma {:induction false} SplitLossless(e: Engine, script: string, from: nat)
    requires from <= |script|
    ensures Lossless(script, Split(e, script[from..], from), from)
    decreases |script| - from
  {
    hide Push, Item, FirstSep, InSpan, Covers, Lossless, Split;
    var mid := from + FirstSep(e, script[from..]);
    var p := Push(script[from..mid], from);
    PushCovers(script, from, mid);
    if mid < |script| {
      assert script[mid] == ';';
      SplitAtSep(e, script, from, mid);
      SplitLossless(e, script, mid + 1);
      LosslessAppend(script, p, Split(e, script[mid + 1..], mid + 1), from, mid);
    } else {
      SplitAtEnd(e, script, from);
      LosslessOne(script, p, from);
    }
  }

  lemma InSpanAppend(p: seq<Span>, rest: seq<Span>, q: nat)
    ensures InSpan(p, q) || InSpan(rest, q) ==> InSpan(p + rest, q)
  {
    var out := p + rest;
    assert forall i :: 0 <= i < |p| ==> out[i] == p[i];
    assert forall i :: 0 <= i < |rest| ==> out[|p| + i] == rest[i];
  }

  lemma LosslessAppend(script: string, p: seq<Span>, rest: seq<Span>, from: nat, mid: nat)
    requires from <= mid < |script| && script[mid] == ';' && |p| <= 1
    requires forall i :: 0 <= i < |p| ==> from <= p[i].start && p[i].end <= mid && Covers(script, p[i])
    requires forall q :: from <= q < mid && !InSpan(p, q) ==> script[q] in Spaces
    requires Lossless(script, rest, mid + 1)
    ensures Lossless(script, p + rest, from)
  {
    hide Covers, InSpan;
    var out := p + rest;
    forall q | from <= q < |script| && !InSpan(out, q)
      ensures script[q] in Spaces || script[q] == ';'
    {
      InSpanAppend(p, rest, q);
    }
    assert forall i :: 0 <= i < |out| ==> out[i] == if i < |p| then p[i] else rest[i - |p|];
    forall i, j | 0 <= i < j < |out|
      ensures out[i].end < out[j].start
    {
      assert j >= |p|;
    }
  }

  // ---------- splitting again ----------

  /** Where a statement may be cut: at a space, a separator or its end. */
  predicate CutPoint(s: string, m: nat) {
    m <= |s| && (m < |s| ==> s[m] in Spaces || s[m] == ';')
  }

  lemma IndexOrEndCut(s: string, c: char, m: nat)
    requires m <= |s|
    ensures IndexOrEnd(s[..m], c) == if IndexOrEnd(s, c) <= m then IndexOrEnd(s, c) else m
  {
    var n := IndexOrEnd(s, c);
    IndexOrEndUnique(s[..m], c, if n <= m then n else m);
  }

  lemma TagLenCut(s: string, m: nat)
    requires s != [] && s[0] == '$' && m >= 1 && CutPoint(s, m)
    ensures TagLen(s[..m]) == TagLen(s) && TagLen(s) <= m
  {
    hide Run;
    var p := s[..m];
    var j := Run(TagChars, s[1..]);
    assert forall k :: 0 <= k < j ==> s[1 + k] == s[1..][k] && s[1 + k] in TagChars;
    assert p[1..] == s[1..][..m - 1];
    RunUnique(TagChars, p[1..], if j <= m - 1 then j else m - 1);
  }

  /** A run of n characters of s, cut at m. */
  function CutTo(n: nat, m: nat): nat { if n <= m then n else m }

  lemma QuotedCut(s: string, m: nat, bs: bool)
    requires s != [] && m >= 1 && CutPoint(s, m) && s[0] !in Spaces && s[0] != ';'
    ensures 1 + QuotedBody(s[..m][1..], s[0], bs) == CutTo(1 + QuotedBody(s[1..], s[0], bs), m)
  {
    hide QuotedBody;
    assert s[..m][1..] == s[1..][..m - 1];
    QuotedBodyCut(s[1..], m - 1, s[0], bs);
  }

  lemma BlockCut(s: string, m: nat)
    requires m >= 2 && CutPoint(s, m)
    ensures 2 + BlockBody(s[..m][2..], 1, false) == CutTo(2 + BlockBody(s[2..], 1, false), m)
  {
    hide BlockBody;
    assert s[..m][2..] == s[2..][..m - 2];
    BlockBodyCut(s[2..], m - 2, 1, false);
  }

  lemma DollarCut(s: string, m: nat)
    requires s != [] && s[0] == '$' && m >= 1 && CutPoint(s, m)
    ensures var n := TagLen(s);
            n <= m && TagLen(s[..m]) == n &&
            (n > 0 ==> n + TagBody(s[..m][n..], s[..m][..n]) == CutTo(n + TagBody(s[n..], s[..n]), m))
  {
    hide TagLen, TagBody;
    TagLenCut(s, m);
    var n := TagLen(s);
    assert s[..m][n..] == s[n..][..m - n] && s[..m][..n] == s[..n];
    if n > 0 { TagBodyCut(s[n..], m - n, s[..n]); }
  }

  lemma StartsCut(s: string, m: nat, a: char, b: char)
    requires m >= 1 && CutPoint(s, m) && b !in Spaces && b != ';'
    ensures Starts(s[..m], a, b) == Starts(s, a, b)
    ensures Starts(s, a, b) ==> m >= 2
  {
  }

  /** Cutting a script there cuts the step that straddles the cut, and no
      other. */
  lemma ItemCut(e: Engine, s: string, m: nat)
    requires s != [] && s[0] != ';' && m >= 1 && CutPoint(s, m)
    ensures Item(e, s[..m]) == CutTo(Item(e, s), m)
  {
    hide QuotedBody, BlockBody, IndexOrEnd, TagBody, TagLen;
    var c := s[0];
    StartsCut(s, m, '-', '-');
    StartsCut(s, m, '/', '*');
    hide Starts;
    if Starts(s, '-', '-') || (e.MySQLish() && c == '#') {
      IndexOrEndCut(s, '\n', m);
    } else if Starts(s, '/', '*') {
      BlockCut(s, m);
    } else if c == '\'' {
      QuotedCut(s, m, e.MySQLish());
    } else if c == '"' || c == '`' {
      QuotedCut(s, m, false);
    } else if c == '$' {
      DollarCut(s, m);
    }
  }

  lemma {:induction false} FirstSepCut(e: Engine, s: string, m: nat)
    requires m <= FirstSep(e, s) && CutPoint(s, m)
    ensures FirstSep(e, s[..m]) == m
    decreases |s|
  {
    hide Item;
    if m > 0 {
      var n, p := Item(e, s), s[..m];
      ItemCut(e, s, m);
      if n <= m {
        assert p[n..] == s[n..][..m - n];
        FirstSepCut(e, s[n..], m - n);
      } else {
        assert p[m..] == [];
      }
    }
  }

  /** Leading spaces are steps of their own. */
  lemma {:induction false} FirstSepSpaces(e: Engine, s: string, k: nat)
    requires k <= Run(Spaces, s)
    ensures k + FirstSep(e, s[k..]) == FirstSep(e, s)
  {
    if k == 0 {
      assert s[0..] == s;
    } else {
      SpaceItem(e, s);
      hide Item;
      FirstSepSpaces(e, s[1..], k - 1);
      assert s[1..][k - 1..] == s[k..];
    }
  }

  lemma SpaceItem(e: Engine, s: string)
    requires s != [] && s[0] in Spaces
    ensures Item(e, s) == 1
  {
  }

  /** What Push keeps has no separator in it and is trimmed. */
  lemma PushSplitsAlone(e: Engine, s: string, base: nat)
    requires FirstSep(e, s) == |s|
    ensures forall i :: 0 <= i < |Push(s, base)| ==>
              var t := Push(s, base)[i].sql; Split(e, t, 0) == [Span(t, 0, |t|)]
  {
    hide Run, TrimRight, FirstSep;
    var lead := Run(Spaces, s);
    var u := s[lead..];
    var t := TrimRight(Spaces, u);
    if t != [] {
      FirstSepSpaces(e, s, lead);
      FirstSepCut(e, u, |t|);
      assert u[..|t|] == t;
      assert t[0] !in Spaces && t[|t| - 1] !in Spaces;
      TrimTrimmed(t);
      assert t[..|t|] == t;
      assert Split(e, t, 0) == Push(t, 0) + [] == Push(t, 0);
    }
  }

  lemma TrimTrimmed(t: string)
    requires t != [] && t[0] !in Spaces && t[|t| - 1] !in Spaces
    ensures Push(t, 0) == [Span(t, 0, |t|)]
  {
    assert Run(Spaces, t) == 0 && t[0..] == t;
  }

  /** Splitting a produced statement again gives just that statement. */
  lemma {:induction false} SplitAgain(e: Engine, s: string, base: nat, i: nat)
    requires i < |Split(e, s, base)|
    ensures var t := Split(e, s, base)[i].sql; Split(e, t, 0) == [Span(t, 0, |t|)]
    decreases |s|
  {
    hide Push, Item, FirstSep;
    var n := FirstSep(e, s);
    var p := Push(s[..n], base);
    FirstSepCut(e, s, n);
    PushSplitsAlone(e, s[..n], base);
    if i < |p| {
      assert Split(e, s, base)[i] == p[i];
    } else {
      SplitAgain(e, s[n + 1..], base + n + 1, i - |p|);
    }
  }

  // ---------- the statement at the caret ----------

  predicate Holds(s: Span, offset: int) { s.start <= offset <= s.end }

  ghost predicate Ordered(out: seq<Span>) {
    && (forall i :: 0 <= i < |out| ==> out[i].start < out[i].end)
    && (forall i, j :: 0 <= i < j < |out| ==> out[i].end < out[j].start)
  }

  /** The span a caret belongs to: the one that holds it, else the last one that
      starts before it, else the first. */
  ghost predicate Picked(out: seq<Span>, offset: int, pick: Span) {
    && pick in out
    && (forall i :: 0 <= i < |out| && Holds(out[i], offset) ==> pick == out[i])
    && (offset < out[0].start ==> pick == out[0])
    && (offset >= out[0].start ==>
          pick.start <= offset && forall i :: 0 <= i < |out| && out[i].start <= offset ==> out[i].start <= pick.start)
  }

  lemma HoldsOnce(out: seq<Span>, offset: int, i: nat, j: nat)
    requires Ordered(out) && i < |out| && j < |out|
    requires Holds(out[i], offset) && Holds(out[j], offset)
    ensures i == j
  {
  }

  /** The caret is in at most one statement, so what StatementAt picks is
      determined. */
  lemma PickedUnique(out: seq<Span>, offset: int, a: Span, b: Span)
    requires Ordered(out) && Picked(out, offset, a) && Picked(out, offset, b)
    ensures a == b
  {
    var i :| 0 <= i < |out| && out[i] == a;
    var j :| 0 <= j < |out| && out[j] == b;
    if i < j {
      assert out[i].end < out[j].start;
    } else if j < i {
      assert out[j].end < out[i].start;
    }
  }

  method PickSpan(spans: seq<Span>, offset: int) returns (pick: Span)
    requires Ordered(spans) && spans != []
    ensures Picked(spans, offset, pick)
  {
    pick := spans[0];
    for i := 0 to |spans|
      invariant pick in spans
      invariant forall j :: 0 <= j < i ==> !Holds(spans[j], offset)
      invariant if i == 0 || offset < spans[0].start then pick == spans[0] else pick.start <= offset
      invariant forall j :: 0 <= j < i && spans[j].start <= offset ==> spans[j].start <= pick.start
    {
      var s := spans[i];
      if offset >= s.start {
        pick := s;
      }
      if offset >= s.start && offset <= s.end {
        forall j | 0 <= j < |spans| && Holds(spans[j], offset)
          ensures j == i
        {
          HoldsOnce(spans, offset, i, j);
        }
        return;
      }
    }
  }

  /** StatementAt. */
  method StatementAt(e: Engine, script: string, offset: int) returns (pick: Span, ok: bool)
    ensures ok <==> Split(e, script, 0) != []
    ensures ok ==> Ordered(Split(e, script, 0)) && Picked(Split(e, script, 0), offset, pick)
  {
    hide Split, Picked, InSpan;
    var spans := SplitStatementSpans(e, script);
    SplitLossless(e, script, 0);
    assert script[0..] == script;
    if |spans| == 0 {
      return Span("", 0, 0), false;
    }
    pick := PickSpan(spans, offset);
    ok := true;
  }
}
