/** How a statement's leading words are found in its text: white space and
    comments in front of a word, and the letters it is typed in, do not hide what
    an interactive transaction has to refuse or to let through. */
module TxWords {
  import opened Text
  import opened Sqlhl
  import opened SqlhlLocality
  import opened Literal
  import opened TxText
  import opened Transactions

  // ---------- the tokens of a text from its front ----------

  lemma {:induction false} SignificantMoved(a: string, t: string, toks: seq<Token>)
    requires forall i :: 0 <= i < |toks| ==> toks[i].start <= toks[i].end <= |t|
    ensures Significant(a + t, Shift(toks, |a|)) == Significant(t, toks)
  {
    var moved := Shift(toks, |a|);
    if toks != [] {
      SignificantMoved(a, t, toks[1..]);
      assert moved[1..] == Shift(toks[1..], |a|);
      assert (a + t)[moved[0].start..moved[0].end] == t[toks[0].start..toks[0].end];
    }
  }

  /** A first stretch of one kind, with something of another kind after it. */
  lemma FrontToken(L: Lexis, a: string, t: string, k: Kind)
    requires a != [] && Kinds(L, a + t) == Rep(k, |a|) + Kinds(L, t)
    requires t != [] ==> Kinds(L, t)[0] != k
    ensures SignificantTokens(L, a + t) ==
            (if k == Plain || k == Comment then [] else [SqlToken(a, k == Keyword || k == Ident)]) +
            SignificantTokens(L, t)
  {
    hide Kinds;
    var ks, rest := Kinds(L, t), Runs(Kinds(L, t));
    var moved := Shift(rest, |a|);
    FrontRun(k, |a|, ks);
    TokensInBounds(L, t);
    SignificantMoved(a, t, rest);
    var toks := [Token(k, 0, |a|)] + moved;
    assert toks[1..] == moved;
    assert (a + t)[0..|a|] == a;
  }

  lemma {:induction false} FrontRun(k: Kind, n: nat, ks: seq<Kind>)
    requires n >= 1 && (ks != [] ==> ks[0] != k)
    ensures Runs(Rep(k, n) + ks) == [Token(k, 0, n)] + Shift(Runs(ks), n)
  {
    hide Runs, Shift, Seam;
    var a, b := [Token(k, 0, n)], Shift(Runs(ks), n);
    RunsConcat(Rep(k, n), ks);
    OneRun(k, n);
    SeamIs(a, b);
    if ks != [] {
      FirstOfRuns(ks, n);
      assert b == [b[0]] + b[1..];
    } else {
      assert b == [] && a + b == a;
    }
  }

  lemma OneRun(k: Kind, n: nat)
    requires n >= 1
    ensures Runs(Rep(k, n)) == [Token(k, 0, n)]
  {
    RunsAppend([], k, n);
    assert [] + Rep(k, n) == Rep(k, n);
    assert Runs([]) == [];
  }

  lemma FirstOfRuns(ks: seq<Kind>, n: nat)
    requires ks != []
    ensures Shift(Runs(ks), n) != [] && Shift(Runs(ks), n)[0].kind == ks[0]
  {
    RunsTile(ks);
  }

  // ---------- white space, comments and words ----------

  predicate Spaces(L: Lexis, a: string) { forall i :: 0 <= i < |a| ==> a[i] in L.space }

  /** What may stand in front of a statement's first word: a line comment, then
      white space that begins with the end of its line; or white space alone. */
  predicate Front(L: Lexis, comment: string, gap: string) {
    && Spaces(L, gap)
    && (comment == "" || ("--" <= comment && '\n' !in comment && gap != [] && gap[0] == '\n'))
  }

  predicate Letters(w: string) { w != [] && forall i :: 0 <= i < |w| ==> IsAsciiLetter(w[i]) }

  /** A word ends at white space, at a semicolon and at the end. */
  predicate WordEnds(L: Lexis, t: string) { t == [] || t[0] in L.space || t[0] == ';' }

  lemma FirstKind(L: Lexis, s: string)
    requires s != []
    ensures Kinds(L, s)[0] == Lead(L, s).kind
  {
    hide Lead;
  }

  lemma LeadOfWord(L: Lexis, w: string, t: string)
    requires L.Valid() && Letters(w) && WordEnds(L, t)
    ensures var x := Lead(L, w + t); x.len == |w| && (x.kind == Keyword || x.kind == Ident)
  {
    var s := w + t;
    assert s[0] == w[0] && w[0] in L.letter && w[0] !in L.space && w[0] !in L.digit;
    assert forall i :: 0 <= i < |w| ==> s[i] in L.IdentPart();
    assert t != [] ==> s[|w|] == t[0] && t[0] !in L.IdentPart() && t[0] != '\'';
    RunUnique(L.IdentPart(), s, |w|);
  }

  lemma WordFirst(L: Lexis, w: string, t: string)
    requires L.Valid() && Letters(w) && WordEnds(L, t)
    ensures SignificantTokens(L, w + t) == [SqlToken(w, true)] + SignificantTokens(L, t)
  {
    hide SignificantTokens;
    var x := Lead(L, w + t);
    LeadOfWord(L, w, t);
    if t != [] {
      FirstKind(L, t);
      EndKind(L, t);
    }
    hide Lead;
    assert (w + t)[|w|..] == t;
    FrontToken(L, w, t, x.kind);
  }

  lemma EndKind(L: Lexis, t: string)
    requires L.Valid() && t != [] && WordEnds(L, t)
    ensures Lead(L, t).kind == Plain || Lead(L, t).kind == Operator
  {
  }

  lemma SpacesSkipped(L: Lexis, gap: string, t: string)
    requires L.Valid() && Spaces(L, gap) && (t != [] ==> t[0] !in L.space)
    ensures SignificantTokens(L, gap + t) == SignificantTokens(L, t)
  {
    hide SignificantTokens;
    if gap == [] {
      assert gap + t == t;
    } else {
      SpacesKinds(L, gap, t);
      if t != [] {
        FirstKind(L, t);
        NotPlain(L, t);
      }
      hide Kinds;
      FrontToken(L, gap, t, Plain);
    }
  }

  lemma NotPlain(L: Lexis, t: string)
    requires t != [] && t[0] !in L.space
    ensures Lead(L, t).kind != Plain
  {
  }

  lemma CommentSkipped(L: Lexis, comment: string, t: string)
    requires L.Valid() && "--" <= comment && '\n' !in comment && t != [] && t[0] == '\n'
    ensures SignificantTokens(L, comment + t) == SignificantTokens(L, t)
  {
    hide SignificantTokens;
    var s := comment + t;
    assert s[0] == comment[0] == '-' && s[1] == comment[1] == '-' && '-' !in L.space;
    IndexOrEndUnique(s, '\n', |comment|);
    assert Lead(L, s) == Lexeme(Comment, |comment|);
    assert Lead(L, t).kind == Plain by { assert '\n' in L.space; }
    FirstKind(L, t);
    hide Lead;
    assert s[|comment|..] == t;
    FrontToken(L, comment, t, Comment);
  }

  /** Comments and white space in front do not hide a statement's first word,
      and the rest of its words are those of the rest of its text. */
  lemma FirstWordFound(L: Lexis, comment: string, gap: string, w: string, t: string)
    requires L.Valid() && Front(L, comment, gap) && Letters(w) && WordEnds(L, t)
    ensures SignificantTokens(L, comment + (gap + (w + t))) == [SqlToken(w, true)] + SignificantTokens(L, t)
  {
    hide SignificantTokens;
    assert (w + t)[0] == w[0] && IsAsciiLetter(w[0]) && w[0] !in L.space;
    WordFirst(L, w, t);
    SpacesSkipped(L, gap, w + t);
    if comment == "" {
      assert "" + (gap + (w + t)) == gap + (w + t);
    } else {
      CommentSkipped(L, comment, gap + (w + t));
    }
  }

  // ---------- what is refused and what is let through, as typed ----------

  /** A typed BEGIN, START, COMMIT, END or ABORT never reaches the server from an
      active transaction: behind comments and white space, in any mixture of
      cases, whatever follows it. */
  lemma TypedControlRefused(e: Engine, L: Lexis, h: Handle, comment: string, gap: string, w: string, t: string)
    requires L.Valid() && Front(L, comment, gap) && WordEnds(L, t) && h.state == Active
    requires Spells(w, "BEGIN") || Spells(w, "START") || Spells(w, "COMMIT") || Spells(w, "END") || Spells(w, "ABORT")
    ensures Admit(e, L, h, comment + (gap + (w + t))) == RefusedControl
  {
    hide SignificantTokens, Admit, Front, WordEnds;
    SpelledLetters(w);
    FirstWordFound(L, comment, gap, w, t);
    var sql := comment + (gap + (w + t));
    AdmitExact(e, L, h, sql);
    assert ServerControls(e, SignificantTokens(L, sql));
    assert !Spells(w, "ROLLBACK");
  }

  lemma SpelledLetters(w: string)
    requires || Spells(w, "BEGIN") || Spells(w, "START") || Spells(w, "COMMIT") || Spells(w, "END")
             || Spells(w, "ABORT") || Spells(w, "ROLLBACK") || Spells(w, "TO")
    ensures Letters(w)
  {
  }

  /** A typed ROLLBACK with nothing after it is refused the same way; ROLLBACK TO
      is let through, and it is what an aborted transaction takes. */
  lemma TypedRollback(e: Engine, L: Lexis, h: Handle, comment: string, gap: string, w: string, mid: string, to: string,
                      t: string)
    requires L.Valid() && Front(L, comment, gap) && Spells(w, "ROLLBACK")
    requires mid != [] && Spaces(L, mid) && Spells(to, "TO") && WordEnds(L, t)
    ensures h.state == Active ==> Admit(e, L, h, comment + (gap + (w + ""))) == RefusedControl
    ensures h.state == Active || h.state == Aborted ==> Admit(e, L, h, comment + (gap + (w + (mid + (to + t))))) == Done
  {
    hide SignificantTokens, Admit, Front;
    SpelledLetters(w);
    SpelledLetters(to);
    var bare, partial := comment + (gap + (w + "")), comment + (gap + (w + (mid + (to + t))));
    FirstWordFound(L, comment, gap, w, "");
    FirstWordFound(L, comment, gap, w, mid + (to + t));
    GapInFront(L, mid);
    FirstWordFound(L, "", mid, to, t);
    assert "" + (mid + (to + t)) == mid + (to + t);
    NoTokens(L);
    AdmitExact(e, L, h, bare);
    AdmitExact(e, L, h, partial);
    PartialWords(w, to, SignificantTokens(L, t));
    assert !PartialRollback([SqlToken(w, true)] + []) && ServerControls(e, [SqlToken(w, true)] + []);
  }

  lemma GapInFront(L: Lexis, gap: string)
    requires Spaces(L, gap)
    ensures Front(L, "", gap)
  {
  }

  lemma NoTokens(L: Lexis)
    ensures SignificantTokens(L, "") == []
  {
  }

  lemma PartialWords(w: string, to: string, rest: seq<SqlToken>)
    requires Spells(w, "ROLLBACK") && Spells(to, "TO")
    ensures PartialRollback([SqlToken(w, true)] + ([SqlToken(to, true)] + rest))
  {
  }
}
