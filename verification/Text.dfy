/** Text scanning shared by the highlighter's tokenizer (sqlhl.go) and the
    statement splitter (statements.go). Every function looks only at the text
    that is left, so what it answers cannot depend on what came before; the
    lemmas say how far ahead it can look. */
module Text {

  /** The longest prefix of s made of characters of cs. */
  function Run(cs: set<char>, s: string): (n: nat)
    ensures n <= |s|
    ensures forall i :: 0 <= i < n ==> s[i] in cs
    ensures n < |s| ==> s[n] !in cs
  {
    if s != [] && s[0] in cs then 1 + Run(cs, s[1..]) else 0
  }

  lemma RunUnique(cs: set<char>, s: string, n: nat)
    requires n <= |s|
    requires forall i :: 0 <= i < n ==> s[i] in cs
    requires n < |s| ==> s[n] !in cs
    ensures Run(cs, s) == n
  {
  }

  /** A run cannot look past the first character that is not in it. */
  lemma RunStops(cs: set<char>, a: string, t: string)
    requires t == [] || t[0] !in cs
    ensures Run(cs, a + t) == Run(cs, a)
  {
    RunUnique(cs, a + t, Run(cs, a));
  }

  /** The offset of the first c in s, or |s|. */
  function IndexOrEnd(s: string, c: char): (n: nat)
    ensures n <= |s|
    ensures forall i :: 0 <= i < n ==> s[i] != c
    ensures n < |s| ==> s[n] == c
  {
    if s == [] || s[0] == c then 0 else 1 + IndexOrEnd(s[1..], c)
  }

  lemma IndexOrEndUnique(s: string, c: char, n: nat)
    requires n <= |s|
    requires forall i :: 0 <= i < n ==> s[i] != c
    requires n < |s| ==> s[n] == c
    ensures IndexOrEnd(s, c) == n
  {
  }

  /** How much of s, the text after an opening quote q, belongs to the quoted
      run, closing quote included. A doubled quote is an escape, a backslash
      takes the next character with it when bs is set, and a run that is never
      closed takes everything. */
  function QuotedBody(s: string, q: char, bs: bool): (n: nat)
    ensures n <= |s|
    ensures s != [] ==> n >= 1
  {
    if s == [] then 0
    else if bs && s[0] == '\\' then
      if |s| == 1 then 1 else 2 + QuotedBody(s[2..], q, bs)
    else if s[0] == q then
      if |s| > 1 && s[1] == q then 2 + QuotedBody(s[2..], q, bs) else 1
    else 1 + QuotedBody(s[1..], q, bs)
  }

  /** A quoted run that closes inside a closes there whatever follows, as long
      as what follows is not one more quote. */
  lemma {:induction false} QuotedBodyCloses(a: string, x: string, t: string, q: char, bs: bool)
    requires x != [] && x[0] != q
    requires t == [] || t[0] != q
    requires QuotedBody(a + x, q, bs) <= |a|
    ensures QuotedBody(a + t, q, bs) == QuotedBody(a + x, q, bs)
  {
    assert a == [] ==> a + x == x;
    if a == [] {
      assert false;
    } else if (bs && a[0] == '\\') || (a[0] == q && |a| > 1 && a[1] == q) {
      if |a| > 1 {
        assert (a + x)[2..] == a[2..] + x && (a + t)[2..] == a[2..] + t;
        QuotedBodyCloses(a[2..], x, t, q, bs);
      }
    } else if a[0] != q {
      assert (a + x)[1..] == a[1..] + x && (a + t)[1..] == a[1..] + t;
      QuotedBodyCloses(a[1..], x, t, q, bs);
    }
  }

  /** Whatever a quoted run ends in, other than the end of the text, is its
      own quote. */
  lemma {:induction false} QuotedBodyEnd(s: string, q: char, bs: bool)
    ensures var n := QuotedBody(s, q, bs); n < |s| ==> n >= 1 && s[n - 1] == q
  {
    if s == [] {
    } else if bs && s[0] == '\\' {
      if |s| > 1 { QuotedBodyEnd(s[2..], q, bs); }
    } else if s[0] == q {
      if |s| > 1 && s[1] == q { QuotedBodyEnd(s[2..], q, bs); }
    } else {
      QuotedBodyEnd(s[1..], q, bs);
    }
  }

  /** Cutting a text anywhere but in front of a quote cuts its quoted run there
      too, and changes nothing else about it. */
  lemma {:induction false} QuotedBodyCut(s: string, m: nat, q: char, bs: bool)
    requires m <= |s|
    requires m < |s| ==> s[m] != q
    ensures QuotedBody(s[..m], q, bs) == if QuotedBody(s, q, bs) <= m then QuotedBody(s, q, bs) else m
  {
    if m == 0 {
    } else if (bs && s[0] == '\\') || (s[0] == q && |s| > 1 && s[1] == q) {
      if m > 1 {
        assert s[..m][2..] == s[2..][..m - 2];
        QuotedBodyCut(s[2..], m - 2, q, bs);
      }
    } else if s[0] != q {
      assert s[..m][1..] == s[1..][..m - 1];
      QuotedBodyCut(s[1..], m - 1, q, bs);
    }
  }

  /** How much of s, the text after an opening comment mark, belongs to a block
      comment depth levels deep, closing mark included. */
  function BlockBody(s: string, depth: nat, nests: bool): (n: nat)
    requires depth >= 1
    ensures n <= |s|
    decreases |s|
  {
    if s == [] then 0
    else if |s| > 1 && s[0] == '*' && s[1] == '/' then
      if depth == 1 then 2 else 2 + BlockBody(s[2..], depth - 1, nests)
    else if nests && |s| > 1 && s[0] == '/' && s[1] == '*' then
      2 + BlockBody(s[2..], depth + 1, nests)
    else 1 + BlockBody(s[1..], depth, nests)
  }

  /** One step into a + y, where no comment mark straddles the seam. */
  lemma BlockBodyStep(a: string, y: string, depth: nat, nests: bool)
    requires depth >= 1 && a != []
    requires y == [] || (y[0] != '/' && y[0] != '*')
    ensures BlockBody(a + y, depth, nests) ==
            if |a| > 1 && a[0] == '*' && a[1] == '/' then
              if depth == 1 then 2 else 2 + BlockBody(a[2..] + y, depth - 1, nests)
            else if nests && |a| > 1 && a[0] == '/' && a[1] == '*' then 2 + BlockBody(a[2..] + y, depth + 1, nests)
            else 1 + BlockBody(a[1..] + y, depth, nests)
  {
    assert (a + y)[1..] == a[1..] + y;
    if |a| > 1 { assert (a + y)[2..] == a[2..] + y; }
  }

  lemma {:induction false} BlockBodyCloses(a: string, x: string, t: string, depth: nat, nests: bool)
    requires depth >= 1
    requires x != [] && x[0] != '/' && x[0] != '*'
    requires t == [] || (t[0] != '/' && t[0] != '*')
    requires BlockBody(a + x, depth, nests) <= |a|
    ensures BlockBody(a + t, depth, nests) == BlockBody(a + x, depth, nests)
    decreases |a|
  {
    assert a == [] ==> a + x == x;
    if a == [] {
      assert false;
    } else {
      BlockBodyStep(a, x, depth, nests);
      BlockBodyStep(a, t, depth, nests);
      hide BlockBody;
      var two := |a| > 1 && ((a[0] == '*' && a[1] == '/') || (nests && a[0] == '/' && a[1] == '*'));
      if !two {
        BlockBodyCloses(a[1..], x, t, depth, nests);
      } else if a[0] == '/' || depth > 1 {
        BlockBodyCloses(a[2..], x, t, if a[0] == '/' then depth + 1 else depth - 1, nests);
      }
    }
  }

  lemma {:induction false} BlockBodyEnd(s: string, depth: nat, nests: bool)
    requires depth >= 1
    ensures var n := BlockBody(s, depth, nests); n < |s| ==> n >= 2 && s[n - 1] == '/'
    decreases |s|
  {
    if s == [] {
    } else if |s| > 1 && s[0] == '*' && s[1] == '/' {
      if depth > 1 { BlockBodyEnd(s[2..], depth - 1, nests); }
    } else if nests && |s| > 1 && s[0] == '/' && s[1] == '*' {
      BlockBodyEnd(s[2..], depth + 1, nests);
    } else {
      BlockBodyEnd(s[1..], depth, nests);
    }
  }

  lemma BlockBodyCut(s: string, m: nat, depth: nat, nests: bool)
    requires depth >= 1
    requires m <= |s|
    requires m < |s| ==> s[m] != '/' && s[m] != '*'
    ensures BlockBody(s[..m], depth, nests) ==
            if BlockBody(s, depth, nests) <= m then BlockBody(s, depth, nests) else m
  {
    hide BlockBody;
    assert s == s[..m] + s[m..];
    BlockBodyCutAt(s[..m], s[m..], depth, nests);
  }

  lemma {:induction false} BlockBodyCutAt(a: string, y: string, depth: nat, nests: bool)
    requires depth >= 1
    requires y == [] || (y[0] != '/' && y[0] != '*')
    ensures var n := BlockBody(a + y, depth, nests); BlockBody(a, depth, nests) == if n <= |a| then n else |a|
    decreases |a|
  {
    if a == [] {
      assert a + y == y;
    } else {
      BlockBodyStep(a, y, depth, nests);
      BlockBodyStep(a, "", depth, nests);
      hide BlockBody;
      assert a + "" == a && a[1..] + "" == a[1..];
      var two := |a| > 1 && ((a[0] == '*' && a[1] == '/') || (nests && a[0] == '/' && a[1] == '*'));
      if !two {
        BlockBodyCutAt(a[1..], y, depth, nests);
      } else {
        assert a[2..] + "" == a[2..];
        if a[0] == '/' || depth > 1 {
          BlockBodyCutAt(a[2..], y, if a[0] == '/' then depth + 1 else depth - 1, nests);
        }
      }
    }
  }

  /** How much of s, the text after an opening dollar tag, belongs to the
      dollar-quoted run: through the first occurrence of the tag, else
      everything. */
  function TagBody(s: string, tag: string): (n: nat)
    requires tag != []
    ensures n <= |s|
  {
    if s == [] then 0
    else if tag <= s then |tag|
    else 1 + TagBody(s[1..], tag)
  }

  /** The tag occurs at offset k of s. */
  predicate TagAt(s: string, tag: string, k: nat) {
    k + |tag| <= |s| && s[k..k + |tag|] == tag
  }

  /** k is the first place the tag occurs at. */
  ghost predicate TagFirst(s: string, tag: string, k: nat) {
    TagAt(s, tag, k) && forall j: nat :: j < k ==> !TagAt(s, tag, j)
  }

  ghost predicate NoTag(s: string, tag: string) {
    forall k: nat :: !TagAt(s, tag, k)
  }

  lemma TagAtShift(s: string, tag: string, k: nat)
    requires s != [] && k >= 1
    ensures TagAt(s, tag, k) <==> TagAt(s[1..], tag, k - 1)
  {
    if k + |tag| <= |s| {
      var a, b := s[k..k + |tag|], s[1..][k - 1..k - 1 + |tag|];
      assert forall i :: 0 <= i < |tag| ==> a[i] == s[k + i] == b[i];
      assert a == b;
    }
  }

  lemma TagFirstShift(s: string, tag: string)
    requires s != [] && !TagAt(s, tag, 0)
    ensures forall k: nat :: TagFirst(s[1..], tag, k) ==> TagFirst(s, tag, k + 1)
    ensures NoTag(s[1..], tag) ==> NoTag(s, tag)
  {
    hide TagAt;
    forall k: nat | k >= 1
      ensures TagAt(s, tag, k) <==> TagAt(s[1..], tag, k - 1)
    {
      TagAtShift(s, tag, k);
    }
  }

  /** TagBody ends at the first occurrence, or at the end when there is none. */
  lemma {:induction false} TagBodyFirst(s: string, tag: string)
    requires tag != []
    ensures var n := TagBody(s, tag);
            (n >= |tag| && TagFirst(s, tag, n - |tag|)) || (n == |s| && NoTag(s, tag))
  {
    if s == [] {
    } else if tag <= s {
      assert s[0..|tag|] == s[..|tag|] == tag;
    } else {
      assert !TagAt(s, tag, 0);
      hide TagAt, TagFirst, NoTag;
      TagBodyFirst(s[1..], tag);
      TagFirstShift(s, tag);
    }
  }

  /** The converse: a first occurrence determines TagBody. */
  lemma TagBodyAt(s: string, tag: string, k: nat)
    requires tag != [] && TagFirst(s, tag, k)
    ensures TagBody(s, tag) == k + |tag|
  {
    hide TagBody;
    TagBodyFirst(s, tag);
  }

  lemma TagBodyNone(s: string, tag: string)
    requires tag != [] && NoTag(s, tag)
    ensures TagBody(s, tag) == |s|
  {
    hide TagBody;
    TagBodyFirst(s, tag);
  }

  /** A dollar-quoted run that closes inside a closes there whatever follows. */
  lemma TagBodyCloses(a: string, x: string, t: string, tag: string)
    requires tag != [] && x != []
    requires TagBody(a + x, tag) <= |a|
    ensures TagBody(a + t, tag) == TagBody(a + x, tag)
  {
    hide TagBody;
    var n := TagBody(a + x, tag);
    TagBodyFirst(a + x, tag);
    var k := n - |tag|;
    forall j: nat | j <= k
      ensures TagAt(a + t, tag, j) <==> TagAt(a + x, tag, j)
    {
      assert (a + t)[j..j + |tag|] == a[j..j + |tag|] == (a + x)[j..j + |tag|];
    }
    TagBodyAt(a + t, tag, k);
  }

  lemma TagBodyCut(s: string, m: nat, tag: string)
    requires tag != [] && m <= |s|
    ensures TagBody(s[..m], tag) == if TagBody(s, tag) <= m then TagBody(s, tag) else m
  {
    hide TagBody;
    var p, n := s[..m], TagBody(s, tag);
    TagBodyFirst(s, tag);
    forall j: nat
      ensures TagAt(p, tag, j) <==> j + |tag| <= m && TagAt(s, tag, j)
    {
      if j + |tag| <= m { assert p[j..j + |tag|] == s[j..j + |tag|]; }
    }
    if NoTag(s, tag) || n > m {
      assert NoTag(p, tag);
      TagBodyNone(p, tag);
    } else {
      TagBodyAt(p, tag, n - |tag|);
    }
  }

  /** n copies of x. */
  function Rep<T>(x: T, n: nat): (r: seq<T>)
    ensures |r| == n
    ensures forall i :: 0 <= i < n ==> r[i] == x
  {
    seq(n, i => x)
  }

  function TrimRight(cs: set<char>, s: string): (r: string)
    ensures r != [] ==> r[|r| - 1] !in cs
    ensures |r| <= |s| && r == s[..|r|]
    ensures forall i :: |r| <= i < |s| ==> s[i] in cs
  {
    if s != [] && s[|s| - 1] in cs then TrimRight(cs, s[..|s| - 1]) else s
  }

  /** strings.TrimSpace, for the spaces cs. */
  function Trim(cs: set<char>, s: string): (r: string)
    ensures r != [] ==> r[0] !in cs && r[|r| - 1] !in cs
  {
    TrimRight(cs, s[Run(cs, s)..])
  }

  function LowerChar(c: char): char {
    if 'A' <= c <= 'Z' then ((c as int) + 32) as char else c
  }

  /** strings.ToLower, on ASCII. */
  function Lower(s: string): (r: string)
    ensures |r| == |s|
    ensures forall i :: 0 <= i < |s| ==> r[i] == LowerChar(s[i])
  {
    seq(|s|, i requires 0 <= i < |s| => LowerChar(s[i]))
  }

  /** The text is the upper-case word, its letters in any mixture of cases. */
  predicate Spells(text: string, word: string) {
    |text| == |word| && forall i :: 0 <= i < |word| ==> text[i] == word[i] || text[i] == LowerChar(word[i])
  }

  /** strings.Join(parts, sep). */
  function Join(parts: seq<string>, sep: string): string {
    if parts == [] then ""
    else if |parts| == 1 then parts[0]
    else Join(parts[..|parts| - 1], sep) + sep + parts[|parts| - 1]
  }

  lemma JoinSnoc(parts: seq<string>, p: string, sep: string)
    ensures Join(parts + [p], sep) == if parts == [] then p else Join(parts, sep) + sep + p
  {
    assert (parts + [p])[..|parts|] == parts;
  }

  lemma Assoc<T>(a: seq<T>, b: seq<T>, c: seq<T>)
    ensures (a + b) + c == a + (b + c)
  {
  }

  /** The first part is in front. */
  lemma {:induction false} JoinFront(p: string, rest: seq<string>, sep: string)
    ensures Join([p] + rest, sep) == if rest == [] then p else p + (sep + Join(rest, sep))
    decreases |rest|
  {
    hide Join;
    JoinFew(p, sep);
    if rest != [] {
      var n := |rest| - 1;
      var less, last := rest[..n], rest[n];
      var j := Join(less, sep);
      JoinFront(p, less, sep);
      assert [p] + rest == ([p] + less) + [last] && rest == less + [last];
      JoinSnoc([p] + less, last, sep);
      JoinSnoc(less, last, sep);
      if n > 0 {
        FourParts(p, sep, j, last);
      } else {
        Assoc(p, sep, last);
        assert [p] + less == [p];
      }
    } else {
      assert [p] + rest == [p];
    }
  }

  lemma JoinFew(p: string, sep: string)
    ensures Join([p], sep) == p
  {
  }

  lemma FourParts(p: string, sep: string, j: string, last: string)
    ensures (p + (sep + j)) + sep + last == p + (sep + (j + sep + last))
  {
  }

  function Digit(d: nat): char
    requires d < 10
  {
    "0123456789"[d]
  }

  function Decimal(n: nat): string {
    if n < 10 then [Digit(n)] else Decimal(n / 10) + [Digit(n % 10)]
  }

  /** The number that decimal digits write. */
  function DigitsValue(u: string): int {
    if u == [] then 0 else 10 * DigitsValue(u[..|u| - 1]) + (u[|u| - 1] as int - '0' as int)
  }

  /** strconv.FormatInt(n, 10). */
  function FormatInt(n: int): string {
    if n < 0 then "-" + Decimal(-n) else Decimal(n)
  }

  lemma {:induction false} DecimalChars(n: nat)
    ensures forall i :: 0 <= i < |Decimal(n)| ==> '0' <= Decimal(n)[i] <= '9'
    ensures Decimal(n) != []
  {
    if n >= 10 {
      DecimalChars(n / 10);
    }
  }

  lemma {:induction false} DecimalInjective(a: nat, b: nat)
    requires Decimal(a) == Decimal(b)
    ensures a == b
  {
    if a >= 10 && b >= 10 {
      var p, q := Decimal(a / 10), Decimal(b / 10);
      assert Decimal(a)[..|p|] == p && Decimal(b)[..|q|] == q;
      assert Decimal(a)[|p|] == Digit(a % 10) && Decimal(b)[|q|] == Digit(b % 10);
      DecimalInjective(a / 10, b / 10);
    } else {
      DecimalChars(a / 10);
      DecimalChars(b / 10);
    }
  }

  /** Decimal digits write the number they were made from. */
  lemma {:induction false} DecimalValue(n: nat)
    ensures DigitsValue(Decimal(n)) == n
  {
    var d := Decimal(n);
    assert d[|d| - 1] == Digit(n % 10);
    if n < 10 {
      assert d[..0] == "";
    } else {
      assert d[..|d| - 1] == Decimal(n / 10);
      DecimalValue(n / 10);
    }
  }

  lemma FormatIntInjective(a: int, b: int)
    requires FormatInt(a) == FormatInt(b)
    ensures a == b
  {
    DecimalChars(if a < 0 then -a else a);
    DecimalChars(if b < 0 then -b else b);
    assert a >= 0 ==> FormatInt(a)[0] == Decimal(a)[0];
    assert b >= 0 ==> FormatInt(b)[0] == Decimal(b)[0];
    if a < 0 && b < 0 {
      assert Decimal(-a) == FormatInt(a)[1..] == Decimal(-b);
      DecimalInjective(-a, -b);
    } else if a >= 0 && b >= 0 {
      DecimalInjective(a, b);
    }
  }
}
