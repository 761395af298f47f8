/** A source read one character at a time: what the tokenizer has to answer, said
    without its jumps. Every mode says which kind its characters have and where
    it ends: line comments, block comments so many levels deep, runs between
    quotes, dollar bodies with their tag, words, placeholders and numbers. */
module TokenReading {
  import opened Text
  import opened Sqlhl

  /** Where the next character stands. Passing(n, k, m) holds the n further
      characters, of kind k, of a mark, an escape or a tag, before m. */
  datatype Mode =
    | Code
    | LineComment
    | BlockComment(depth: nat)
    | Quoted(quote: char, backslash: bool, kind: Kind)
    | Body(tag: string)
    | Word(kind: Kind)
    | Parameter
    | Hex
    | Whole
    | Fraction
    | Power
    | Passing(n: nat, kind: Kind, next: Mode)

  /** The kind of a character and the mode after it. */
  datatype Reads = Reads(kind: Kind, mode: Mode)

  predicate Decimal(c: char) { '0' <= c <= '9' }
  predicate HexDigit(c: char) { Decimal(c) || 'a' <= c <= 'f' || 'A' <= c <= 'F' }

  /** A character that a word, a name or a `?` goes on with. */
  predicate Part(L: Lexis, c: char) { c in L.letter || c in L.digit || c == '_' || c == '$' }

  predicate PartAt(L: Lexis, s: string, i: nat) { i < |s| && Part(L, s[i]) }

  /** The identifier characters that s starts with. */
  function WordOf(L: Lexis, s: string): string {
    if PartAt(L, s, 0) then [s[0]] + WordOf(L, s[1..]) else ""
  }

  /** The dollar tag that s starts with: everything through its second dollar
      sign, if only identifier characters are between the two. */
  function Tag(L: Lexis, s: string): (t: string)
    ensures t <= s && |t| != 1
  {
    if s == [] || s[0] != '$' then ""
    else
      var j := IndexOrEnd(s[1..], '$');
      if j < |s| - 1 && forall i :: 1 <= i <= j ==> Part(L, s[i]) then s[..j + 2] else ""
  }

  /** An e, a sign or none, and a digit. */
  predicate Exponent(s: string) {
    && |s| > 1 && (s[0] == 'e' || s[0] == 'E')
    && (Decimal(s[1]) || (|s| > 2 && (s[1] == '+' || s[1] == '-') && Decimal(s[2])))
  }

  /** The character that starts a token. */
  function Start(L: Lexis, s: string): Reads
    requires s != []
  {
    var c, d := s[0], At(s, 1);
    if c in L.space then Reads(Plain, Code)
    else if c == '-' && d == '-' then Reads(Comment, LineComment)
    else if c == '#' && L.d == MySQL then Reads(Comment, LineComment)
    else if c == '/' && d == '*' then Reads(Comment, Passing(1, Comment, BlockComment(1)))
    else if c == '\'' then Reads(String, Quoted(c, L.d == MySQL, String))
    else if c == '"' && L.d == MySQL then Reads(String, Quoted(c, true, String))
    else if c == '"' || c == '`' then Reads(QuotedIdent, Quoted(c, false, QuotedIdent))
    else if c == '$' then
      if L.d != Postgres && L.d != DuckDB then Reads(Operator, Code)
      else if Decimal(d) then Reads(Placeholder, Parameter)
      else if Tag(L, s) != "" then Reads(String, Passing(|Tag(L, s)| - 1, String, Body(Tag(L, s))))
      else Reads(Operator, Code)
    else if c == '?' then Reads(Placeholder, Word(Placeholder))
    else if c == ':' then
      if d == ':' then Reads(Operator, Passing(1, Operator, Code))
      else if |s| > 1 && (L.IdentStart(d) || Decimal(d)) then Reads(Placeholder, Word(Placeholder))
      else Reads(Operator, Code)
    else if c == '@' && L.d == MySQL then
      if |s| > 1 && L.IdentStart(d) then Reads(Placeholder, Word(Placeholder))
      else if d == '@' && |s| > 2 && L.IdentStart(s[2]) then
        Reads(Placeholder, Passing(1, Placeholder, Word(Placeholder)))
      else Reads(Operator, Code)
    else if c == '0' && (d == 'x' || d == 'X') then Reads(Number, Passing(1, Number, Hex))
    else if Decimal(c) then Reads(Number, Whole)
    else if c == '.' && Decimal(d) then Reads(Number, Fraction)
    else if c in L.digit then Reads(Number, Code)
    else if c in L.prefix && L.IdentStart(c) && d == '\'' then
      Reads(String, Passing(1, String, Quoted('\'', c in L.escaping, String)))
    else if L.IdentStart(c) then
      var k := if WordOf(L, s) in L.kw then Keyword else Ident; Reads(k, Word(k))
    else Reads(Operator, Code)
  }

  /** What the first character of s is in mode m, in front of the rest. */
  function Read(L: Lexis, m: Mode, s: string): Reads
    requires s != []
  {
    var c, d := s[0], At(s, 1);
    match m
    case Code => Start(L, s)
    case LineComment => if c == '\n' then Start(L, s) else Reads(Comment, m)
    case BlockComment(n) =>
      if c == '*' && d == '/' then Reads(Comment, Passing(1, Comment, if n <= 1 then Code else BlockComment(n - 1)))
      else if c == '/' && d == '*' && (L.d == Postgres || L.d == DuckDB) then
        Reads(Comment, Passing(1, Comment, BlockComment(n + 1)))
      else Reads(Comment, m)
    case Quoted(q, backslash, k) =>
      if (c == '\\' && backslash) || (c == q && d == q) then Reads(k, Passing(1, k, m))
      else Reads(k, if c == q then Code else m)
    case Body(tag) =>
      Reads(String, if tag != "" && tag <= s then Passing(|tag| - 1, String, Code) else m)
    case Word(k) => if Part(L, c) then Reads(k, m) else Start(L, s)
    case Parameter => if Decimal(c) then Reads(Placeholder, m) else Start(L, s)
    case Hex => if HexDigit(c) then Reads(Number, m) else Start(L, s)
    case Whole =>
      if Decimal(c) then Reads(Number, m)
      else if c == '.' then Reads(Number, Fraction)
      else if Exponent(s) then Reads(Number, if Decimal(d) then Power else Passing(1, Number, Power))
      else Start(L, s)
    case Fraction =>
      if Decimal(c) then Reads(Number, m)
      else if Exponent(s) then Reads(Number, if Decimal(d) then Power else Passing(1, Number, Power))
      else Start(L, s)
    case Power => if Decimal(c) then Reads(Number, m) else Start(L, s)
    case Passing(n, k, next) => Reads(k, if n <= 1 then next else Passing(n - 1, k, next))
  }

  /** The kinds of the characters of s, read from mode m. */
  function Reading(L: Lexis, m: Mode, s: string): (ks: seq<Kind>)
    ensures |ks| == |s|
    decreases |s|
  {
    if s == [] then [] else [Read(L, m, s).kind] + Reading(L, Read(L, m, s).mode, s[1..])
  }

  // ---------- stretches of one kind ----------

  /** From mode m the next n characters have kind k, and what is left is read
      afresh. */
  ghost predicate Takes(L: Lexis, m: Mode, s: string, n: nat, k: Kind)
    requires n <= |s|
  {
    Reading(L, m, s) == Rep(k, n) + Reading(L, Code, s[n..])
  }

  lemma ReadOn(L: Lexis, m: Mode, s: string)
    requires s != []
    ensures Reading(L, m, s) == [Read(L, m, s).kind] + Reading(L, Read(L, m, s).mode, s[1..])
  {
    hide Read;
  }

  /** One more character in front. */
  lemma More(L: Lexis, m: Mode, s: string, to: Mode, n: nat, k: Kind)
    requires s != [] && n < |s| && Read(L, m, s) == Reads(k, to) && Takes(L, to, s[1..], n, k)
    ensures Takes(L, m, s, n + 1, k)
  {
    hide Read, Reading;
    ReadOn(L, m, s);
    assert s[1..][n..] == s[n + 1..];
    assert Rep(k, n + 1) == [k] + Rep(k, n);
  }

  /** A mode that has come to its end reads afresh. */
  lemma Ends(L: Lexis, m: Mode, s: string, k: Kind)
    requires s == [] || Read(L, m, s) == Start(L, s)
    ensures Takes(L, m, s, 0, k)
  {
    hide Start;
    assert s[0..] == s;
    if s != [] {
      ReadOn(L, m, s);
      ReadOn(L, Code, s);
    }
  }

  lemma Fresh(L: Lexis, s: string, k: Kind)
    ensures Takes(L, Code, s, 0, k)
  {
    hide Start;
    if s != [] { assert Read(L, Code, s) == Start(L, s); }
    Ends(L, Code, s, k);
  }

  lemma {:induction false} PassingTakes(L: Lexis, n: nat, k: Kind, m: Mode, s: string, j: nat)
    requires n >= 1 && n + j <= |s| && Takes(L, m, s[n..], j, k)
    ensures Takes(L, Passing(n, k, m), s, n + j, k)
    decreases n
  {
    hide Takes;
    var to := if n == 1 then m else Passing(n - 1, k, m);
    assert Read(L, Passing(n, k, m), s) == Reads(k, to);
    hide Read;
    if n > 1 {
      assert s[1..][n - 1..] == s[n..];
      PassingTakes(L, n - 1, k, m, s[1..], j);
    }
    More(L, Passing(n, k, m), s, to, n - 1 + j, k);
  }

  /** A mode that goes on with the characters of a set. */
  ghost predicate Stays(L: Lexis, m: Mode, cs: set<char>, k: Kind) {
    forall s: string :: s != [] ==> Read(L, m, s) == if s[0] in cs then Reads(k, m) else Start(L, s)
  }

  lemma {:induction false} RunTakes(L: Lexis, m: Mode, cs: set<char>, k: Kind, s: string)
    requires Stays(L, m, cs, k)
    ensures Takes(L, m, s, Run(cs, s), k)
    decreases |s|
  {
    hide Takes, Read, Start;
    if s != [] && s[0] in cs {
      RunTakes(L, m, cs, k, s[1..]);
      More(L, m, s, m, Run(cs, s[1..]), k);
    } else {
      Ends(L, m, s, k);
    }
  }

  lemma PartIs(L: Lexis)
    ensures forall c :: Part(L, c) <==> c in L.IdentPart()
  {
  }

  lemma WordStays(L: Lexis, k: Kind)
    ensures Stays(L, Word(k), L.IdentPart(), k)
  {
    PartIs(L);
    hide Start;
  }

  lemma DigitStays(L: Lexis)
    ensures Stays(L, Parameter, AsciiDigits, Placeholder)
    ensures Stays(L, Power, AsciiDigits, Number) && Stays(L, Hex, HexDigits, Number)
  {
    hide Start;
  }

  lemma {:induction false} LineTakes(L: Lexis, s: string)
    ensures Takes(L, LineComment, s, IndexOrEnd(s, '\n'), Comment)
    decreases |s|
  {
    hide Takes, Start;
    if s != [] && s[0] != '\n' {
      LineTakes(L, s[1..]);
      More(L, LineComment, s, LineComment, IndexOrEnd(s[1..], '\n'), Comment);
    } else {
      Ends(L, LineComment, s, Comment);
    }
  }

  /** A closing mark, a nested one, or one more character. */
  lemma BlockStep(L: Lexis, d: nat, s: string)
    requires s != [] && d >= 1
    ensures var n, r := BlockBody(s, d, L.Nests()), Read(L, BlockComment(d), s);
            if |s| > 1 && s[0] == '*' && s[1] == '/' then
              if d == 1 then r == Reads(Comment, Passing(1, Comment, Code)) && n == 2
              else r == Reads(Comment, Passing(1, Comment, BlockComment(d - 1))) && n == 2 + BlockBody(s[2..], d - 1, L.Nests())
            else if L.Nests() && |s| > 1 && s[0] == '/' && s[1] == '*' then
              r == Reads(Comment, Passing(1, Comment, BlockComment(d + 1))) && n == 2 + BlockBody(s[2..], d + 1, L.Nests())
            else r == Reads(Comment, BlockComment(d)) && n == 1 + BlockBody(s[1..], d, L.Nests())
  {
    hide Start;
  }

  lemma {:induction false} BlockTakes(L: Lexis, d: nat, s: string)
    requires d >= 1
    ensures Takes(L, BlockComment(d), s, BlockBody(s, d, L.Nests()), Comment)
    decreases |s|
  {
    hide Takes, Read, Start;
    if s == [] {
      Ends(L, BlockComment(d), s, Comment);
    } else {
      BlockStep(L, d, s);
      var n, r := BlockBody(s, d, L.Nests()), Read(L, BlockComment(d), s);
      hide BlockBody;
      if r.mode == BlockComment(d) {
        BlockTakes(L, d, s[1..]);
        More(L, BlockComment(d), s, r.mode, n - 1, Comment);
      } else {
        var next := r.mode.next;
        if next == Code { Fresh(L, s[2..], Comment); } else { BlockTakes(L, next.depth, s[2..]); }
        assert s[1..][1..] == s[2..];
        PassingTakes(L, 1, Comment, next, s[1..], n - 2);
        More(L, BlockComment(d), s, r.mode, n - 1, Comment);
      }
    }
  }

  /** An escape, a closing quote, or one more character. */
  lemma QuotedStep(L: Lexis, q: char, bs: bool, k: Kind, s: string)
    requires s != [] && q != '\\' && q != '\0'
    ensures var m := Quoted(q, bs, k);
            var n, r := QuotedBody(s, q, bs), Read(L, m, s);
            if (bs && s[0] == '\\') || (s[0] == q && |s| > 1 && s[1] == q) then
              r == Reads(k, Passing(1, k, m)) && n == if |s| == 1 then 1 else 2 + QuotedBody(s[2..], q, bs)
            else if s[0] == q then r == Reads(k, Code) && n == 1
            else r == Reads(k, m) && n == 1 + QuotedBody(s[1..], q, bs)
  {
    hide Start;
  }

  lemma {:induction false} QuotedTakes(L: Lexis, q: char, bs: bool, k: Kind, s: string)
    requires q != '\\' && q != '\0'
    ensures Takes(L, Quoted(q, bs, k), s, QuotedBody(s, q, bs), k)
    decreases |s|
  {
    hide Takes, Read, Start, QuotedBody;
    var m := Quoted(q, bs, k);
    if s == [] {
      Ends(L, m, s, k);
    } else {
      QuotedStep(L, q, bs, k, s);
      var n, r := QuotedBody(s, q, bs), Read(L, m, s);
      if r.mode == m {
        QuotedTakes(L, q, bs, k, s[1..]);
      } else if r.mode == Code {
        Fresh(L, s[1..], k);
      } else if |s| == 1 {
        Ends(L, r.mode, s[1..], k);
      } else {
        QuotedTakes(L, q, bs, k, s[2..]);
        assert s[1..][1..] == s[2..];
        PassingTakes(L, 1, k, m, s[1..], n - 2);
      }
      More(L, m, s, r.mode, n - 1, k);
    }
  }

  lemma {:induction false} BodyTakes(L: Lexis, tag: string, s: string)
    requires |tag| >= 2
    ensures Takes(L, Body(tag), s, TagBody(s, tag), String)
    decreases |s|
  {
    hide Takes, Start;
    if s == [] {
      Ends(L, Body(tag), s, String);
    } else {
      var r := Read(L, Body(tag), s);
      assert r == Reads(String, if tag <= s then Passing(|tag| - 1, String, Code) else Body(tag));
      hide Read;
      if tag <= s {
        Fresh(L, s[|tag|..], String);
        assert s[1..][|tag| - 1..] == s[|tag|..];
        PassingTakes(L, |tag| - 1, String, Code, s[1..], 0);
        More(L, Body(tag), s, r.mode, |tag| - 1, String);
      } else {
        BodyTakes(L, tag, s[1..]);
        More(L, Body(tag), s, r.mode, TagBody(s[1..], tag), String);
      }
    }
  }

  // ---------- numbers ----------

  /** Where the exponent, if there is one, ends. */
  lemma ExponentTakes(L: Lexis, m: Mode, s: string)
    requires m == Whole || m == Fraction
    requires s != [] ==> !Decimal(s[0]) && (m == Whole ==> s[0] != '.')
    ensures Takes(L, m, s, ExponentEnd(s, 0), Number)
  {
    hide Takes, Start;
    if s != [] && Exponent(s) {
      DigitStays(L);
      var k := if Decimal(s[1]) then 1 else 2;
      var n := Run(AsciiDigits, s[k..]);
      assert ExponentEnd(s, 0) == k + n by { assert DigitAt(s, k); }
      var r := Read(L, m, s);
      assert r == Reads(Number, if Decimal(s[1]) then Power else Passing(1, Number, Power));
      hide Read;
      RunTakes(L, Power, AsciiDigits, Number, s[k..]);
      if k == 2 {
        assert s[1..][1..] == s[2..];
        PassingTakes(L, 1, Number, Power, s[1..], n);
      }
      More(L, m, s, r.mode, k - 1 + n, Number);
    } else {
      Ends(L, m, s, Number);
    }
  }

  lemma {:induction false} FractionTakes(L: Lexis, s: string)
    ensures Takes(L, Fraction, s, ExponentEnd(s, Run(AsciiDigits, s)), Number)
    decreases |s|
  {
    hide Takes, Start, ExponentEnd;
    if s != [] && Decimal(s[0]) {
      FractionTakes(L, s[1..]);
      ExponentShift(s, 1, Run(AsciiDigits, s[1..]));
      More(L, Fraction, s, Fraction, ExponentEnd(s[1..], Run(AsciiDigits, s[1..])), Number);
    } else {
      ExponentTakes(L, Fraction, s);
    }
  }

  /** How much of s goes on a number that has begun with a digit. */
  function WholeEnd(s: string): (n: nat)
    ensures n <= |s|
  {
    ExponentEnd(s, FractionEnd(s, Run(AsciiDigits, s)))
  }

  lemma WholeShift(s: string)
    requires s != [] && Decimal(s[0])
    ensures WholeEnd(s) == 1 + WholeEnd(s[1..])
  {
    hide ExponentEnd;
    var r := s[1..];
    var d := Run(AsciiDigits, r);
    assert FractionEnd(s, d + 1) == 1 + FractionEnd(r, d) by {
      assert At(s, d + 1) == At(r, d);
      if d < |r| { assert s[d + 2..] == r[d + 1..]; }
    }
    ExponentShift(s, 1, FractionEnd(r, d));
  }

  lemma PointEnd(s: string)
    requires s != [] && s[0] == '.'
    ensures WholeEnd(s) == 1 + ExponentEnd(s[1..], Run(AsciiDigits, s[1..]))
  {
    hide ExponentEnd;
    ExponentShift(s, 1, Run(AsciiDigits, s[1..]));
  }

  lemma {:induction false} WholeTakes(L: Lexis, s: string)
    ensures Takes(L, Whole, s, WholeEnd(s), Number)
    decreases |s|
  {
    hide Takes, Start, ExponentEnd;
    if s != [] && Decimal(s[0]) {
      WholeTakes(L, s[1..]);
      WholeShift(s);
      More(L, Whole, s, Whole, WholeEnd(s[1..]), Number);
    } else if s != [] && s[0] == '.' {
      FractionTakes(L, s[1..]);
      PointEnd(s);
      More(L, Whole, s, Fraction, WholeEnd(s) - 1, Number);
    } else {
      ExponentTakes(L, Whole, s);
    }
  }

  // ---------- one scanning step ----------

  lemma CodeStays(L: Lexis)
    ensures Stays(L, Code, L.space, Plain)
  {
  }

  lemma StartOf(L: Lexis, s: string)
    requires s != []
    ensures Read(L, Code, s) == Start(L, s)
  {
    hide Start;
  }

  /** A start and what it starts. */
  lemma Begins(L: Lexis, s: string, to: Mode, n: nat, k: Kind)
    requires s != [] && n < |s| && Start(L, s) == Reads(k, to) && Takes(L, to, s[1..], n, k)
    ensures Takes(L, Code, s, n + 1, k)
  {
    hide Start, Takes, Read;
    StartOf(L, s);
    More(L, Code, s, to, n, k);
  }

  lemma {:induction false} WordIs(L: Lexis, s: string)
    ensures WordOf(L, s) == s[..Run(L.IdentPart(), s)]
  {
    PartIs(L);
    if s != [] && Part(L, s[0]) {
      WordIs(L, s[1..]);
    }
  }

  lemma WordTakes(L: Lexis, s: string)
    requires L.Valid() && s != [] && L.IdentStart(s[0])
    ensures Takes(L, Code, s, WordLead(L, s).len, WordLead(L, s).kind)
  {
    hide Takes, QuotedBody, Read;
    var end := Run(L.IdentPart(), s);
    WordIs(L, s);
    WordStart(L, s);
    if s[0] in L.prefix && At(s, 1) == '\'' {
      var n := QuotedBody(s[2..], '\'', s[0] in L.escaping);
      RunUnique(L.IdentPart(), s, 1);
      hide Run, Start;
      QuotedTakes(L, '\'', s[0] in L.escaping, String, s[2..]);
      assert s[1..][1..] == s[2..];
      PassingTakes(L, 1, String, Quoted('\'', s[0] in L.escaping, String), s[1..], n);
      Begins(L, s, Passing(1, String, Quoted('\'', s[0] in L.escaping, String)), n + 1, String);
    } else {
      var k := if WordOf(L, s) in L.kw then Keyword else Ident;
      PrefixApart(L, s);
      hide Run, Start;
      RunFirst(L, s);
      WordStays(L, k);
      RunTakes(L, Word(k), L.IdentPart(), k, s[1..]);
      Begins(L, s, Word(k), end - 1, k);
    }
  }

  lemma RunFirst(L: Lexis, s: string)
    requires s != [] && L.IdentStart(s[0])
    ensures Run(L.IdentPart(), s) == 1 + Run(L.IdentPart(), s[1..])
  {
  }

  /** A word of more than one letter is no prefix, and one in front of a quote
      ends there. */
  lemma PrefixApart(L: Lexis, s: string)
    requires L.Valid() && s != [] && L.IdentStart(s[0]) && !(s[0] in L.prefix && At(s, 1) == '\'')
    ensures var end := Run(L.IdentPart(), s);
            !(IsStringPrefix(L, s[..end]) && At(s, end) == '\'' && end < |s|)
  {
  }

  lemma WordStart(L: Lexis, s: string)
    requires L.Valid() && s != [] && L.IdentStart(s[0])
    ensures Start(L, s) ==
            if s[0] in L.prefix && At(s, 1) == '\'' then
              Reads(String, Passing(1, String, Quoted('\'', s[0] in L.escaping, String)))
            else
              var k := if WordOf(L, s) in L.kw then Keyword else Ident; Reads(k, Word(k))
  {
    hide WordOf, Tag;
    assert s[0] == '_' || s[0] in L.letter;
    assert s[0] !in L.space && s[0] !in L.digit && !Decimal(s[0]);
    assert s[0] !in "-#/'\"`$?:@." by { assert s[0] < '\U{0080}' ==> s[0] == '_' || IsAsciiLetter(s[0]); }
  }

  /** The tokenizer's tag is this one. */
  lemma TagIs(L: Lexis, s: string)
    requires s != [] && s[0] == '$'
    ensures var cs := L.IdentPart() - {'$'};
            var j := 1 + Run(cs, s[1..]);
            Tag(L, s) == if j < |s| && s[j] == '$' then s[..j + 1] else ""
  {
    hide Run, IndexOrEnd;
    PartIs(L);
    var cs, r, t := L.IdentPart() - {'$'}, s[1..], Tag(L, s);
    var n, j := Run(cs, r), IndexOrEnd(r, '$');
    assert forall i :: 0 <= i < |r| ==> r[i] == s[i + 1];
    if n < |r| && r[n] == '$' {
      IndexOrEndUnique(r, '$', n);
    } else if t != "" {
      RunUnique(cs, r, j);
    }
  }

  lemma DollarTakes(L: Lexis, s: string)
    requires L.Valid() && s != [] && s[0] == '$'
    ensures Takes(L, Code, s, DollarLead(L, s).len, DollarLead(L, s).kind)
  {
    hide Takes, Read, Tag, TagBody, Run;
    assert '$' !in L.space;
    TagIs(L, s);
    var r, tag := s[1..], Tag(L, s);
    if L.Dollars() && DigitAt(s, 1) {
      assert Start(L, s) == Reads(Placeholder, Parameter);
      hide Start;
      DigitStays(L);
      RunTakes(L, Parameter, AsciiDigits, Placeholder, r);
      Begins(L, s, Parameter, Run(AsciiDigits, r), Placeholder);
    } else if L.Dollars() && tag != "" {
      var n := TagBody(s[|tag|..], tag);
      DollarBody(L, s);
      hide Start;
      BodyTakes(L, tag, s[|tag|..]);
      assert r[|tag| - 1..] == s[|tag|..];
      PassingTakes(L, |tag| - 1, String, Body(tag), r, n);
      Begins(L, s, Passing(|tag| - 1, String, Body(tag)), |tag| - 1 + n, String);
    } else {
      assert Start(L, s) == Reads(Operator, Code);
      hide Start;
      Fresh(L, r, Operator);
      Begins(L, s, Code, 0, Operator);
    }
  }

  lemma DollarBody(L: Lexis, s: string)
    requires L.Valid() && s != [] && s[0] == '$' && L.Dollars() && !DigitAt(s, 1) && Tag(L, s) != ""
    ensures var tag := Tag(L, s);
            && Start(L, s) == Reads(String, Passing(|tag| - 1, String, Body(tag)))
            && DollarLead(L, s) == Lexeme(String, |tag| + TagBody(s[|tag|..], tag))
  {
    hide Tag, TagBody, Run;
    assert '$' !in L.space;
    TagIs(L, s);
  }

  lemma HoleTakes(L: Lexis, s: string)
    requires L.Valid() && s != [] && (s[0] == '?' || s[0] == ':' || (s[0] == '@' && L.d == MySQL))
    ensures Takes(L, Code, s, HoleLead(L, s).len, HoleLead(L, s).kind)
  {
    hide Takes, Read, Run, Tag, WordOf;
    assert '?' !in L.space && ':' !in L.space && '@' !in L.space;
    WordStays(L, Placeholder);
    var r, st, x := s[1..], Start(L, s), HoleLead(L, s);
    HoleStart(L, s);
    hide Start, HoleLead;
    if st == Reads(Placeholder, Word(Placeholder)) {
      RunTakes(L, Word(Placeholder), L.IdentPart(), Placeholder, r);
      Begins(L, s, Word(Placeholder), Run(L.IdentPart(), r), Placeholder);
    } else if st.mode == Code {
      Fresh(L, r, Operator);
      Begins(L, s, Code, 0, Operator);
    } else {
      assert r[1..] == s[2..];
      if x.kind == Operator {
        Fresh(L, s[2..], Operator);
        PassingTakes(L, 1, Operator, Code, r, 0);
      } else {
        RunTakes(L, Word(Placeholder), L.IdentPart(), Placeholder, s[2..]);
        PassingTakes(L, 1, Placeholder, Word(Placeholder), r, x.len - 2);
      }
      Begins(L, s, st.mode, x.len - 1, x.kind);
    }
  }

  lemma HoleStart(L: Lexis, s: string)
    requires L.Valid() && s != [] && (s[0] == '?' || s[0] == ':' || (s[0] == '@' && L.d == MySQL))
    ensures var st, x := Start(L, s), HoleLead(L, s);
            || (st == Reads(Placeholder, Word(Placeholder)) && x == Lexeme(Placeholder, 1 + Run(L.IdentPart(), s[1..])))
            || (st == Reads(Operator, Code) && x == Lexeme(Operator, 1))
            || (st == Reads(Operator, Passing(1, Operator, Code)) && x == Lexeme(Operator, 2) && |s| >= 2)
            || (st == Reads(Placeholder, Passing(1, Placeholder, Word(Placeholder)))
                && |s| >= 2 && x == Lexeme(Placeholder, 2 + Run(L.IdentPart(), s[2..])))
  {
    hide Run, Tag, WordOf;
    assert '?' !in L.space && ':' !in L.space && '@' !in L.space;
    assert '@' !in L.letter && !L.IdentStart('@');
  }

  lemma NumberTakes(L: Lexis, s: string)
    requires L.Valid() && s != [] && (s[0] in L.digit || (s[0] == '.' && DigitAt(s, 1)))
    ensures Takes(L, Code, s, if NumberLen(s) == 0 then 1 else NumberLen(s), Number)
  {
    hide Takes, Read, Run, Tag, WordOf, ExponentEnd, FractionEnd;
    NumberStart(L, s);
    var r, st := s[1..], Start(L, s);
    hide Start;
    if st.mode == Whole {
      WholeTakes(L, r);
      WholeShift(s);
      Begins(L, s, Whole, WholeEnd(r), Number);
    } else if st.mode == Fraction {
      FractionTakes(L, r);
      PointEnd(s);
      PointRun(s);
      Begins(L, s, Fraction, WholeEnd(s) - 1, Number);
    } else if st.mode == Code {
      OtherDigit(s);
      Fresh(L, r, Number);
      Begins(L, s, Code, 0, Number);
    } else {
      DigitStays(L);
      assert r[1..] == s[2..];
      RunTakes(L, Hex, HexDigits, Number, s[2..]);
      PassingTakes(L, 1, Number, Hex, r, Run(HexDigits, s[2..]));
      Begins(L, s, Passing(1, Number, Hex), 1 + Run(HexDigits, s[2..]), Number);
    }
  }

  lemma NumberStart(L: Lexis, s: string)
    requires L.Valid() && s != [] && (s[0] in L.digit || (s[0] == '.' && DigitAt(s, 1)))
    ensures var st := Start(L, s);
            st.kind == Number &&
            if s[0] == '0' && (At(s, 1) == 'x' || At(s, 1) == 'X') then st.mode == Passing(1, Number, Hex) && |s| > 1
            else if Decimal(s[0]) then st.mode == Whole
            else if s[0] == '.' then st.mode == Fraction
            else st.mode == Code && !Decimal(s[0]) && s[0] != '.' && s[0] != 'e' && s[0] != 'E'
  {
    hide Tag, WordOf;
    assert s[0] !in L.space;
    assert s[0] < '\U{0080}' ==> Decimal(s[0]) || s[0] == '.';
  }

  lemma PointRun(s: string)
    requires s != [] && s[0] == '.'
    ensures NumberLen(s) == WholeEnd(s)
  {
  }

  lemma OtherDigit(s: string)
    requires s != [] && !Decimal(s[0]) && s[0] != '.' && s[0] != 'e' && s[0] != 'E'
    ensures NumberLen(s) == 0
  {
  }

  lemma QuoteTakes(L: Lexis, s: string)
    requires L.Valid() && s != [] && (s[0] == '\'' || s[0] == '"' || s[0] == '`')
    ensures Takes(L, Code, s, Lead(L, s).len, Lead(L, s).kind)
  {
    hide Takes, Read, Tag, WordOf, QuotedBody;
    assert s[0] !in L.space;
    var k := Lead(L, s).kind;
    var bs := s[0] != '`' && L.d == MySQL;
    assert Start(L, s) == Reads(k, Quoted(s[0], bs, k));
    QuotedTakes(L, s[0], bs, k, s[1..]);
    Begins(L, s, Quoted(s[0], bs, k), QuotedBody(s[1..], s[0], bs), k);
  }

  lemma CommentTakes(L: Lexis, s: string)
    requires L.Valid() && s != []
    requires (s[0] == '-' && At(s, 1) == '-') || (s[0] == '#' && L.d == MySQL) || (s[0] == '/' && At(s, 1) == '*')
    ensures Takes(L, Code, s, Lead(L, s).len, Lead(L, s).kind)
  {
    hide Takes, Read, Tag, WordOf, BlockBody;
    assert s[0] !in L.space;
    var r := s[1..];
    if s[0] == '/' {
      BlockTakes(L, 1, s[2..]);
      assert r[1..] == s[2..];
      PassingTakes(L, 1, Comment, BlockComment(1), r, BlockBody(s[2..], 1, L.Nests()));
      Begins(L, s, Passing(1, Comment, BlockComment(1)), 1 + BlockBody(s[2..], 1, L.Nests()), Comment);
    } else {
      LineTakes(L, r);
      Begins(L, s, LineComment, IndexOrEnd(r, '\n'), Comment);
    }
  }

  /** One scanning step reads as that many characters of its kind. */
  lemma LeadTakes(L: Lexis, s: string)
    requires L.Valid() && s != []
    ensures Takes(L, Code, s, Lead(L, s).len, Lead(L, s).kind)
  {
    hide Takes, Read, Start, DollarLead, WordLead, HoleLead, NumberLen, QuotedBody, BlockBody, IndexOrEnd;
    var c := s[0];
    if c in L.space {
      CodeStays(L);
      RunTakes(L, Code, L.space, Plain, s);
    } else if (c == '-' && At(s, 1) == '-') || (c == '#' && L.d == MySQL) || (c == '/' && At(s, 1) == '*') {
      CommentTakes(L, s);
    } else if c == '\'' || c == '"' || c == '`' {
      QuoteTakes(L, s);
    } else if c == '$' {
      DollarTakes(L, s);
    } else if c == '?' || c == ':' || (c == '@' && L.d == MySQL) {
      HoleTakes(L, s);
    } else if c in L.digit || (c == '.' && DigitAt(s, 1)) {
      NumberTakes(L, s);
    } else if L.IdentStart(c) {
      WordTakes(L, s);
    } else {
      OperatorStart(L, s);
      Fresh(L, s[1..], Operator);
      Begins(L, s, Code, 0, Operator);
    }
  }

  lemma OperatorStart(L: Lexis, s: string)
    requires L.Valid() && s != []
    requires var c := s[0];
             && c !in L.space && !(c == '-' && At(s, 1) == '-') && !(c == '#' && L.d == MySQL) && !(c == '/' && At(s, 1) == '*')
             && c != '\'' && c != '"' && c != '`' && c != '$' && c != '?' && c != ':' && !(c == '@' && L.d == MySQL)
             && c !in L.digit && !(c == '.' && DigitAt(s, 1)) && !L.IdentStart(c)
    ensures Start(L, s) == Reads(Operator, Code)
  {
    assert !Decimal(s[0]);
  }

  /** The tokenizer answers what reading the source one character at a time
      says: every character has the kind of the mode it stands in. */
  lemma {:induction false} KindsRead(L: Lexis, s: string)
    requires L.Valid()
    ensures Kinds(L, s) == Reading(L, Code, s)
    decreases |s|
  {
    hide Lead, Read;
    if s != [] {
      var x := Lead(L, s);
      LeadTakes(L, s);
      KindsRead(L, s[x.len..]);
    }
  }
}
