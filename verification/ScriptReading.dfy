/** A script read one character at a time: what the splitter has to do, said
    without its jumps. A semicolon ends a statement exactly where it stands
    outside of comments, quotes and dollar bodies of its engine. */
module ScriptReading {
  import opened Text
  import opened Literal
  import opened Statements

  /** Where the next character stands. Passing(n, m) holds the n further
      characters of a mark, an escape or a tag, before m. */
  datatype Mode =
    | Code
    | LineComment
    | BlockComment
    | Quoted(quote: char)
    | Body(tag: string)
    | Passing(n: nat, next: Mode)

  predicate TagChar(c: char) { c == '_' || 'a' <= c <= 'z' || 'A' <= c <= 'Z' || '0' <= c <= '9' }

  /** The dollar tag that s starts with: everything through its second dollar
      sign, if only tag characters are between the two. */
  function Tag(s: string): (t: string)
    ensures t <= s && |t| != 1
  {
    if s == [] || s[0] != '$' then ""
    else
      var j := IndexOrEnd(s[1..], '$');
      if j < |s| - 1 && forall i :: 1 <= i <= j ==> TagChar(s[i]) then s[..j + 2] else ""
  }

  /** The mode after the first character of s, in front of the rest. */
  function After(e: Engine, m: Mode, s: string): Mode
    requires s != []
  {
    var c, d := s[0], if |s| > 1 then s[1] else '\0';
    match m
    case Code =>
      if c == '-' && d == '-' then LineComment
      else if c == '#' && (e == EngineMySQL || e == EngineMariaDB) then LineComment
      else if c == '/' && d == '*' then Passing(1, BlockComment)
      else if c == '\'' || c == '"' then Quoted(c)
      else if c == '`' && (e == EngineMySQL || e == EngineMariaDB) then Quoted(c)
      else if e == EnginePostgres && Tag(s) != "" then Passing(|Tag(s)| - 1, Body(Tag(s)))
      else Code
    case LineComment => if c == '\n' then Code else LineComment
    case BlockComment => if c == '*' && d == '/' then Passing(1, Code) else BlockComment
    case Quoted(q) =>
      if c == '\\' && q == '\'' && (e == EngineMySQL || e == EngineMariaDB) then Passing(1, m)
      else if c == q && d == q then Passing(1, m)
      else if c == q then Code
      else m
    case Body(tag) => if tag != "" && tag <= s then Passing(|tag| - 1, Code) else m
    case Passing(n, next) => if n <= 1 then next else Passing(n - 1, next)
  }

  /** The mode in front of the character at p. */
  function ModeAt(e: Engine, m: Mode, s: string, p: nat): Mode
    requires p <= |s|
    decreases p
  {
    if p == 0 then m else ModeAt(e, After(e, m, s), s[1..], p - 1)
  }

  /** A semicolon that ends a statement. */
  predicate Separates(e: Engine, script: string, p: nat) {
    p < |script| && script[p] == ';' && ModeAt(e, Code, script, p) == Code
  }

  // ---------- the next separator ----------

  /** The first character that ends a statement, or |s|, reading from mode m. */
  function NextSep(e: Engine, m: Mode, s: string): (n: nat)
    ensures n <= |s|
    decreases |s|
  {
    if s == [] || (m == Code && s[0] == ';') then 0 else 1 + NextSep(e, After(e, m, s), s[1..])
  }

  lemma {:induction false} NextSepIs(e: Engine, m: Mode, s: string)
    ensures var n := NextSep(e, m, s);
            && (forall p :: 0 <= p < n ==> s[p] != ';' || ModeAt(e, m, s, p) != Code)
            && (n < |s| ==> s[n] == ';' && ModeAt(e, m, s, n) == Code)
    decreases |s|
  {
    hide After;
    if s != [] && !(m == Code && s[0] == ';') {
      var to := After(e, m, s);
      NextSepIs(e, to, s[1..]);
      forall p | 1 <= p <= |s|
        ensures ModeAt(e, m, s, p) == ModeAt(e, to, s[1..], p - 1)
      {
      }
    }
  }

  lemma {:induction false} PassingNext(e: Engine, n: nat, m: Mode, s: string)
    requires 1 <= n <= |s|
    ensures NextSep(e, Passing(n, m), s) == n + NextSep(e, m, s[n..])
    decreases n
  {
    hide After;
    PassingAfter(e, n, m, s);
    if n > 1 {
      PassingNext(e, n - 1, m, s[1..]);
      assert s[1..][n - 1..] == s[n..];
    }
  }

  lemma PassingAfter(e: Engine, n: nat, m: Mode, s: string)
    requires s != [] && n >= 1
    ensures After(e, Passing(n, m), s) == if n == 1 then m else Passing(n - 1, m)
  {
  }

  lemma {:induction false} LineNext(e: Engine, s: string)
    ensures var k := IndexOrEnd(s, '\n'); NextSep(e, LineComment, s) == k + NextSep(e, Code, s[k..])
    decreases |s|
  {
    if s != [] && s[0] != '\n' {
      LineNext(e, s[1..]);
      var k := IndexOrEnd(s[1..], '\n');
      assert s[1..][k..] == s[k + 1..];
    } else {
      assert s[0..] == s;
    }
  }

  lemma NextStep(e: Engine, m: Mode, s: string)
    requires s != [] && !(m == Code && s[0] == ';')
    ensures NextSep(e, m, s) == 1 + NextSep(e, After(e, m, s), s[1..])
    ensures NextSep(e, m, []) == 0
  {
    hide After;
  }

  lemma Shift(s: string, a: nat, b: nat)
    requires a + b <= |s|
    ensures s[a..][b..] == s[a + b..]
  {
  }

  lemma BlockStep(e: Engine, s: string)
    requires s != []
    ensures var n := BlockBody(s, 1, false);
            if |s| > 1 && s[0] == '*' && s[1] == '/' then After(e, BlockComment, s) == Passing(1, Code) && n == 2
            else After(e, BlockComment, s) == BlockComment && n == 1 + BlockBody(s[1..], 1, false)
  {
  }

  lemma {:induction false} BlockNext(e: Engine, s: string)
    ensures var n := BlockBody(s, 1, false); NextSep(e, BlockComment, s) == n + NextSep(e, Code, s[n..])
    decreases |s|
  {
    hide After, NextSep;
    if s == [] {
      NothingNext(e);
    } else {
      var n := BlockBody(s, 1, false);
      BlockStep(e, s);
      hide BlockBody;
      NextStep(e, BlockComment, s);
      if |s| > 1 && s[0] == '*' && s[1] == '/' {
        PassingNext(e, 1, Code, s[1..]);
        Shift(s, 1, 1);
      } else {
        BlockNext(e, s[1..]);
        Shift(s, 1, n - 1);
      }
    }
  }

  lemma NothingNext(e: Engine)
    ensures forall m :: NextSep(e, m, []) == 0
    ensures BlockBody([], 1, false) == 0
  {
  }

  predicate Escapes(e: Engine, q: char) { q == '\'' && (e == EngineMySQL || e == EngineMariaDB) }

  /** An escape, a closing quote, or one more character. */
  lemma QuotedStep(e: Engine, q: char, s: string)
    requires s != [] && q != '\\' && q != '\0'
    ensures var n, m := QuotedBody(s, q, Escapes(e, q)), After(e, Quoted(q), s);
            if (Escapes(e, q) && s[0] == '\\') || (s[0] == q && |s| > 1 && s[1] == q) then
              m == Passing(1, Quoted(q)) && n == if |s| == 1 then 1 else 2 + QuotedBody(s[2..], q, Escapes(e, q))
            else if s[0] == q then m == Code && n == 1
            else m == Quoted(q) && n == 1 + QuotedBody(s[1..], q, Escapes(e, q))
  {
  }

  /** One more character in front of a run between quotes. */
  lemma QuotedOne(e: Engine, q: char, s: string, k: nat)
    requires s != [] && After(e, Quoted(q), s) == Quoted(q) && k < |s|
    requires NextSep(e, Quoted(q), s[1..]) == k + NextSep(e, Code, s[1..][k..])
    ensures NextSep(e, Quoted(q), s) == 1 + k + NextSep(e, Code, s[1 + k..])
  {
    hide After, NextSep;
    NextStep(e, Quoted(q), s);
    Shift(s, 1, k);
  }

  /** Two more. */
  lemma QuotedTwo(e: Engine, q: char, s: string, k: nat)
    requires |s| > 1 && After(e, Quoted(q), s) == Passing(1, Quoted(q)) && 2 + k <= |s|
    requires NextSep(e, Quoted(q), s[2..]) == k + NextSep(e, Code, s[2..][k..])
    ensures NextSep(e, Quoted(q), s) == 2 + k + NextSep(e, Code, s[2 + k..])
  {
    hide After, NextSep;
    NextStep(e, Quoted(q), s);
    PassingNext(e, 1, Quoted(q), s[1..]);
    Shift(s, 1, 1);
    Shift(s, 2, k);
  }

  /** A closing quote, or a backslash at the end. */
  lemma QuotedEnds(e: Engine, q: char, s: string)
    requires s != [] && (After(e, Quoted(q), s) == Code || |s| == 1)
    ensures NextSep(e, Quoted(q), s) == 1 + NextSep(e, Code, s[1..])
  {
    hide After, NextSep;
    NextStep(e, Quoted(q), s);
    if |s| == 1 {
      assert s[1..] == [];
      NothingNext(e);
    }
  }

  lemma {:induction false} QuotedNext(e: Engine, q: char, s: string)
    requires q != '\\' && q != '\0'
    ensures var n := QuotedBody(s, q, Escapes(e, q)); NextSep(e, Quoted(q), s) == n + NextSep(e, Code, s[n..])
    decreases |s|
  {
    hide After, NextSep, Escapes;
    if s == [] {
      NothingNext(e);
    } else {
      var bs, m := Escapes(e, q), After(e, Quoted(q), s);
      QuotedStep(e, q, s);
      hide QuotedBody;
      if m == Quoted(q) {
        QuotedNext(e, q, s[1..]);
        QuotedOne(e, q, s, QuotedBody(s[1..], q, bs));
      } else if m == Code || |s| == 1 {
        QuotedEnds(e, q, s);
      } else {
        QuotedNext(e, q, s[2..]);
        QuotedTwo(e, q, s, QuotedBody(s[2..], q, bs));
      }
    }
  }

  lemma {:induction false} BodyNext(e: Engine, tag: string, s: string)
    requires |tag| >= 2
    ensures var n := TagBody(s, tag); NextSep(e, Body(tag), s) == n + NextSep(e, Code, s[n..])
    decreases |s|
  {
    if s != [] {
      var n := TagBody(s, tag);
      assert After(e, Body(tag), s) == if tag <= s then Passing(|tag| - 1, Code) else Body(tag);
      hide After;
      if tag <= s {
        PassingNext(e, |tag| - 1, Code, s[1..]);
        assert s[1..][|tag| - 1..] == s[|tag|..];
      } else {
        BodyNext(e, tag, s[1..]);
        assert s[1..][n - 1..] == s[n..];
      }
    }
  }

  /** The splitter's tag is this one. */
  lemma TagIs(s: string)
    requires s != [] && s[0] == '$'
    ensures Tag(s) == s[..TagLen(s)]
  {
    hide Run, IndexOrEnd;
    var r, t := s[1..], Tag(s);
    var n, j := Run(TagChars, r), IndexOrEnd(r, '$');
    assert '$' !in TagChars && forall c :: TagChar(c) <==> c in TagChars;
    assert forall i :: 0 <= i < |r| ==> r[i] == s[i + 1];
    if n < |r| && r[n] == '$' {
      IndexOrEndUnique(r, '$', n);
    } else if t != "" {
      RunUnique(TagChars, r, j);
    }
  }

  // ---------- the splitter's steps ----------

  /** One step of the splitter, which is no separator, passes no separator. */
  lemma ItemNext(e: Engine, s: string)
    requires s != [] && s[0] != ';'
    ensures NextSep(e, Code, s) == Item(e, s) + NextSep(e, Code, s[Item(e, s)..])
  {
    hide QuotedBody, BlockBody, IndexOrEnd, TagBody, TagLen, Tag, NextSep;
    var c, r := s[0], s[1..];
    NextStep(e, Code, s);
    if Starts(s, '-', '-') || (e.MySQLish() && c == '#') {
      LineNext(e, r);
      LineStep(s);
    } else if Starts(s, '/', '*') {
      CommentNext(e, s);
    } else if c == '\'' || c == '"' || (e.MySQLish() && c == '`') {
      QuotedNext(e, c, r);
      assert r[Item(e, s) - 1..] == s[Item(e, s)..];
    } else if c == '$' {
      TagIs(s);
      if e == EnginePostgres && TagLen(s) > 0 { DollarNext(e, s); }
    } else {
      NoTag(s);
    }
  }

  lemma CommentNext(e: Engine, s: string)
    requires Starts(s, '/', '*')
    ensures NextSep(e, Code, s) == Item(e, s) + NextSep(e, Code, s[Item(e, s)..])
  {
    hide BlockBody, NextSep;
    NextStep(e, Code, s);
    PassingNext(e, 1, BlockComment, s[1..]);
    assert s[1..][1..] == s[2..];
    BlockNext(e, s[2..]);
    assert s[2..][Item(e, s) - 2..] == s[Item(e, s)..];
  }

  lemma NoTag(s: string)
    requires s != [] && s[0] != '$'
    ensures Tag(s) == ""
  {
  }

  lemma LineStep(s: string)
    requires s != [] && s[0] != '\n'
    ensures var k := IndexOrEnd(s[1..], '\n'); IndexOrEnd(s, '\n') == 1 + k && s[1..][k..] == s[1 + k..]
  {
  }

  lemma DollarStep(e: Engine, s: string)
    requires e == EnginePostgres && s != [] && s[0] == '$' && TagLen(s) > 0
    ensures var n, tag := TagLen(s), s[..TagLen(s)];
            && n >= 2 && Item(e, s) == n + TagBody(s[n..], tag)
            && After(e, Code, s) == Passing(n - 1, Body(tag))
  {
    hide TagBody, TagLen, Tag;
    TagIs(s);
  }

  lemma DollarNext(e: Engine, s: string)
    requires e == EnginePostgres && s != [] && s[0] == '$' && TagLen(s) > 0
    ensures NextSep(e, Code, s) == Item(e, s) + NextSep(e, Code, s[Item(e, s)..])
  {
    hide TagBody, TagLen, Item, After, NextSep;
    DollarStep(e, s);
    var n, tag := TagLen(s), s[..TagLen(s)];
    NextStep(e, Code, s);
    PassingNext(e, n - 1, Body(tag), s[1..]);
    Shift(s, 1, n - 1);
    BodyNext(e, tag, s[n..]);
    Shift(s, n, TagBody(s[n..], tag));
  }

  lemma {:induction false} FirstSepNext(e: Engine, s: string)
    ensures FirstSep(e, s) == NextSep(e, Code, s)
    decreases |s|
  {
    hide Item, After;
    if s != [] && s[0] != ';' {
      ItemNext(e, s);
      FirstSepNext(e, s[Item(e, s)..]);
    }
  }

  // ---------- whole scripts ----------

  lemma {:induction false} ModeAtSplit(e: Engine, m: Mode, s: string, p: nat, q: nat)
    requires p + q <= |s|
    ensures ModeAt(e, m, s, p + q) == ModeAt(e, ModeAt(e, m, s, p), s[p..], q)
    decreases p
  {
    hide After;
    if p > 0 {
      ModeAtSplit(e, After(e, m, s), s[1..], p - 1, q);
      assert s[1..][p - 1..] == s[p..];
    } else {
      assert s[0..] == s;
    }
  }

  /** The splitter's next cut of script[from..] is the next separator of the
      script. */
  lemma NextCut(e: Engine, script: string, from: nat)
    requires from <= |script| && ModeAt(e, Code, script, from) == Code
    ensures var mid := from + FirstSep(e, script[from..]);
            && (forall p :: from <= p < mid ==> !Separates(e, script, p))
            && (mid < |script| ==> Separates(e, script, mid) && ModeAt(e, Code, script, mid + 1) == Code)
  {
    hide After, NextSep, FirstSep, ModeAt;
    var s := script[from..];
    var mid := from + FirstSep(e, s);
    FirstSepNext(e, s);
    NextSepIs(e, Code, s);
    forall p | from <= p < |script|
      ensures s[p - from] == script[p] && ModeAt(e, Code, script, p) == ModeAt(e, Code, s, p - from)
    {
      ModeAtSplit(e, Code, script, from, p - from);
    }
    forall p | from <= p < mid
      ensures !Separates(e, script, p)
    {
      assert s[p - from] != ';' || ModeAt(e, Code, s, p - from) != Code;
    }
    if mid < |script| {
      ModeAtSplit(e, Code, script, mid, 1);
      SeparatorAfter(e, script[mid..]);
    }
  }

  lemma SeparatorAfter(e: Engine, s: string)
    requires s != [] && s[0] == ';'
    ensures ModeAt(e, Code, s, 1) == Code
  {
    NoTag(s);
  }

  /** What spans owe the separators of script[from..]: no separator is inside a
      span, one stands between any two neighbours, and whatever is outside of
      them is white space or a separator. */
  ghost predicate Cut(e: Engine, script: string, out: seq<Span>, from: nat) {
    && (forall p :: from <= p && Separates(e, script, p) ==> !InSpan(out, p))
    && (forall i :: 0 <= i < |out| - 1 ==> SeparatesBetween(e, script, out[i].end, out[i + 1].start))
    && (forall p :: from <= p < |script| && !InSpan(out, p) ==> script[p] in Spaces || Separates(e, script, p))
  }

  ghost predicate SeparatesBetween(e: Engine, script: string, a: nat, b: nat) {
    exists p :: a <= p < b && Separates(e, script, p)
  }

  lemma CutOne(e: Engine, script: string, p: seq<Span>, from: nat)
    requires from <= |script| && |p| <= 1
    requires forall q :: from <= q < |script| ==> !Separates(e, script, q)
    requires forall q :: from <= q < |script| && !InSpan(p, q) ==> script[q] in Spaces
    ensures Cut(e, script, p, from)
  {
    hide ModeAt;
  }

  lemma CutMore(e: Engine, script: string, p: seq<Span>, rest: seq<Span>, from: nat, mid: nat)
    requires from <= mid < |script| && Separates(e, script, mid) && |p| <= 1
    requires forall q :: from <= q < mid ==> !Separates(e, script, q)
    requires forall i :: 0 <= i < |p| ==> p[i].start <= p[i].end <= mid
    requires forall i :: 0 <= i < |rest| ==> mid + 1 <= rest[i].start
    requires forall q :: from <= q < mid && !InSpan(p, q) ==> script[q] in Spaces
    requires Cut(e, script, rest, mid + 1)
    ensures Cut(e, script, p + rest, from)
  {
    hide ModeAt, InSpan, Separates;
    var out := p + rest;
    assert forall i :: 0 <= i < |out| ==> out[i] == if i < |p| then p[i] else rest[i - |p|];
    forall q
      ensures InSpan(out, q) <==> InSpan(p, q) || InSpan(rest, q)
    {
      InBoth(p, rest, q);
    }
    OutsideOf(p, rest, mid);
    forall i | 0 <= i < |out| - 1
      ensures SeparatesBetween(e, script, out[i].end, out[i + 1].start)
    {
      if i >= |p| { assert SeparatesBetween(e, script, rest[i - |p|].end, rest[i - |p| + 1].start); }
    }
  }

  lemma InBoth(p: seq<Span>, rest: seq<Span>, q: nat)
    ensures InSpan(p + rest, q) <==> InSpan(p, q) || InSpan(rest, q)
  {
    InSpanAppend(p, rest, q);
  }

  lemma OutsideOf(p: seq<Span>, rest: seq<Span>, mid: nat)
    requires forall i :: 0 <= i < |p| ==> p[i].start <= p[i].end <= mid
    requires forall i :: 0 <= i < |rest| ==> mid + 1 <= rest[i].start
    ensures forall q :: mid <= q ==> !InSpan(p, q)
    ensures forall q: nat :: q <= mid ==> !InSpan(rest, q)
  {
  }

  lemma {:induction false} SplitCuts(e: Engine, script: string, from: nat)
    requires from <= |script| && ModeAt(e, Code, script, from) == Code
    ensures Cut(e, script, Split(e, script[from..], from), from)
    decreases |script| - from
  {
    hide Push, Item, FirstSep, InSpan, Covers, Separates, Cut, Split, ModeAt;
    var mid := from + FirstSep(e, script[from..]);
    var p := Push(script[from..mid], from);
    NextCut(e, script, from);
    PushCovers(script, from, mid);
    Ends(script, p);
    if mid < |script| {
      var rest := Split(e, script[mid + 1..], mid + 1);
      Separator(e, script, mid);
      SplitAtSep(e, script, from, mid);
      SplitCuts(e, script, mid + 1);
      SplitLossless(e, script, mid + 1);
      CutMore(e, script, p, rest, from, mid);
    } else {
      SplitAtEnd(e, script, from);
      CutOne(e, script, p, from);
    }
  }

  lemma Ends(script: string, p: seq<Span>)
    requires forall i :: 0 <= i < |p| ==> Covers(script, p[i])
    ensures forall i :: 0 <= i < |p| ==> p[i].start <= p[i].end
  {
  }

  lemma Separator(e: Engine, script: string, p: nat)
    requires Separates(e, script, p)
    ensures p < |script| && script[p] == ';'
  {
  }

  /** The statements of a script are the stretches between its separators,
      trimmed: the spans are ordered, carry the trimmed text they cover, hold
      every character that is neither white space nor a separator, hold no
      separator, and any two have a separator between them. */
  lemma SplitReads(e: Engine, script: string)
    ensures Lossless(script, Split(e, script, 0), 0) && Cut(e, script, Split(e, script, 0), 0)
  {
    hide Lossless, Cut, Split;
    assert script[0..] == script;
    SplitLossless(e, script, 0);
    SplitCuts(e, script, 0);
  }
}
