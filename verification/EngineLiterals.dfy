/** The engine behind the tokenizer. A typed string, a quote after one of the
    letters E, X, B and N, ends for the tokenizer at the first quote that no
    backslash escapes; an engine has backslashes escape after some of these
    letters only. Where the two see the same ends, what is proved of the
    tokenizer holds of the engine. */
module EngineLiterals {
  import opened Text
  import opened Sqlhl
  import opened SqlhlLocality
  import opened Literal
  import opened Fragments
  import opened Ddl
  import opened CreateTableStructure

  /** An engine V that differs from the tokenizer C in its typed strings only. */
  predicate Engines(C: Lexis, V: Lexis) {
    V.d == C.d && V.space == C.space && V.letter == C.letter && V.digit == C.digit && V.kw == C.kw && V.prefix <= C.prefix
  }

  /** A typed string starts here. */
  predicate Typed(C: Lexis, s: string) {
    |s| > 1 && C.IdentStart(s[0]) && s[0] in C.prefix && s[1] == '\''
  }

  /** Whether backslashes escape in the engine's string after that letter; a
      letter that is no prefix there is a word in front of a plain string. */
  predicate EscapesAfter(V: Lexis, c: char) { if c in V.prefix then c in V.escaping else V.Backslashes() }

  /** Every typed string of a ends where the engine's does. */
  predicate Alike(C: Lexis, V: Lexis, a: string) {
    a == [] ||
    (var s := a + SENTINEL;
     var n := Lead(C, s).len;
     n <= |a| ==>
       (Typed(C, s) ==> 2 + QuotedBody(s[2..], '\'', EscapesAfter(V, s[0])) == n) && Alike(C, V, a[n..]))
  }

  /** Two kinds that a reading of parentheses, commas, semicolons and comments
      does not tell apart. */
  predicate SameRole(k: Kind, v: Kind) { (k == Comment <==> v == Comment) && (k == Operator <==> v == Operator) }

  ghost predicate SameRoles(ks: seq<Kind>, vs: seq<Kind>) {
    |ks| == |vs| && forall i :: 0 <= i < |ks| ==> SameRole(ks[i], vs[i])
  }

  lemma {:induction false} NestRoles(s: string, ks: seq<Kind>, vs: seq<Kind>, depth: nat)
    requires |s| == |ks| && SameRoles(ks, vs)
    ensures Nest(s, ks, depth) == Nest(s, vs, depth)
  {
    if s != [] {
      assert SameRole(ks[0], vs[0]);
      var d := if ks[0] == Operator && s[0] == '(' then depth + 1
               else if ks[0] == Operator && s[0] == ')' && depth > 0 then depth - 1
               else depth;
      NestRoles(s[1..], ks[1..], vs[1..], d);
    }
  }

  /** Outside of typed strings the engine makes the same step. */
  lemma SameStep(C: Lexis, V: Lexis, s: string)
    requires Engines(C, V) && s != [] && !Typed(C, s)
    ensures Lead(V, s) == Lead(C, s)
  {
    hide DollarLead, HoleLead, NumberLen, QuotedBody, BlockBody, IndexOrEnd, Run;
    SameDollar(C, V, s);
    SameHole(C, V, s);
    if C.IdentStart(s[0]) { SameWord(C, V, s); }
    hide WordLead;
  }

  lemma SameDollar(C: Lexis, V: Lexis, s: string)
    requires Engines(C, V)
    ensures s != [] && s[0] == '$' ==> DollarLead(V, s) == DollarLead(C, s)
  {
    hide Run, TagBody;
  }

  lemma SameHole(C: Lexis, V: Lexis, s: string)
    requires Engines(C, V)
    ensures s != [] && s[0] in "?:@" ==> HoleLead(V, s) == HoleLead(C, s)
  {
    hide Run;
  }

  lemma SameWord(C: Lexis, V: Lexis, s: string)
    requires Engines(C, V) && s != [] && C.IdentStart(s[0]) && !Typed(C, s)
    ensures WordLead(V, s) == WordLead(C, s)
  {
    hide Run, QuotedBody;
    assert V.IdentPart() == C.IdentPart();
  }

  /** A typed string is one step of the tokenizer, and one or two of the
      engine. */
  lemma TypedSteps(C: Lexis, V: Lexis, s: string)
    requires C.Valid() && Engines(C, V) && Typed(C, s)
    ensures Lead(C, s) == Lexeme(String, 2 + QuotedBody(s[2..], '\'', s[0] in C.escaping))
    ensures s[0] in V.prefix ==> Lead(V, s) == Lexeme(String, 2 + QuotedBody(s[2..], '\'', s[0] in V.escaping))
    ensures s[0] !in V.prefix ==>
              && Lead(V, s).len == 1 && Lead(V, s).kind in {Keyword, Ident}
              && Lead(V, s[1..]) == Lexeme(String, 1 + QuotedBody(s[2..], '\'', V.Backslashes()))
  {
    hide QuotedBody, DollarLead, HoleLead, NumberLen, BlockBody, IndexOrEnd;
    assert '\'' !in C.IdentPart() && '\'' !in C.space;
    assert forall i :: 0 <= i < 1 ==> s[i] in C.IdentPart();
    RunUnique(C.IdentPart(), s, 1);
    assert V.IdentPart() == C.IdentPart();
    assert s[1..][1..] == s[2..];
    assert s[0] !in C.space && s[0] !in C.digit && s[0] != '$' && s[0] != '?' by { LetterOnly(C, s[0]); }
  }

  lemma LetterOnly(C: Lexis, c: char)
    requires C.Valid() && C.IdentStart(c)
    ensures c !in C.space && c !in C.digit && c !in "-#/'\"`$?:@."
  {
  }

  lemma RolesAppend(a: seq<Kind>, b: seq<Kind>, c: seq<Kind>, d: seq<Kind>)
    requires SameRoles(a, b) && SameRoles(c, d)
    ensures SameRoles(a + c, b + d)
  {
  }

  /** A fragment whose typed strings end alike is settled for the engine too,
      and every character has the same role. */
  lemma {:induction false} AlikeSettles(C: Lexis, V: Lexis, a: string)
    requires C.Valid() && V.Valid() && Engines(C, V) && Settles(C, a) && Alike(C, V, a)
    ensures Settles(V, a) && SameRoles(Kinds(C, a), Kinds(V, a))
    decreases |a|
  {
    hide Lead, QuotedBody, Typed;
    if a != [] {
      var s := a + SENTINEL;
      var x := Lead(C, s);
      var n := x.len;
      LeadCloses(C, a, "");
      assert a + "" == a;
      AlikeSettles(C, V, a[n..]);
      if Typed(C, s) {
        AlikeTyped(C, V, a);
      } else {
        SameStep(C, V, s);
        LeadCloses(V, a, "");
        RolesAppend(Rep(x.kind, n), Rep(x.kind, n), Kinds(C, a[n..]), Kinds(V, a[n..]));
      }
    }
  }

  /** The step over a typed string. */
  lemma AlikeTyped(C: Lexis, V: Lexis, a: string)
    requires C.Valid() && V.Valid() && Engines(C, V) && a != [] && Typed(C, a + SENTINEL)
    requires var s := a + SENTINEL;
             var n := Lead(C, s).len;
             && n <= |a| && 2 + QuotedBody(s[2..], '\'', EscapesAfter(V, s[0])) == n
             && Lead(C, a) == Lead(C, s)
             && Settles(V, a[n..]) && SameRoles(Kinds(C, a[n..]), Kinds(V, a[n..]))
    ensures Settles(V, a) && SameRoles(Kinds(C, a), Kinds(V, a))
  {
    hide Lead, QuotedBody, Typed, Kinds, Settles, Engines;
    var s := a + SENTINEL;
    var n := Lead(C, s).len;
    TypedSteps(C, V, s);
    StepKinds(C, a, n);
    if s[0] in V.prefix {
      OneStep(V, a, n);
      RolesAppend(Rep(String, n), Rep(String, n), Kinds(C, a[n..]), Kinds(V, a[n..]));
    } else {
      WordThenString(V, a, n);
      RolesAppend(Rep(String, n), Rep(Lead(V, s).kind, 1) + Rep(String, n - 1), Kinds(C, a[n..]), Kinds(V, a[n..]));
    }
  }

  lemma StepKinds(L: Lexis, a: string, n: nat)
    requires a != [] && n <= |a| && Lead(L, a) == Lexeme(String, n)
    ensures Kinds(L, a) == Rep(String, n) + Kinds(L, a[n..])
  {
    hide Lead;
  }

  lemma OneStep(V: Lexis, a: string, n: nat)
    requires V.Valid() && a != [] && n <= |a| && Settles(V, a[n..]) && Lead(V, a + SENTINEL) == Lexeme(String, n)
    ensures Settles(V, a) && Kinds(V, a) == Rep(String, n) + Kinds(V, a[n..])
  {
    hide Lead;
    LeadCloses(V, a, "");
    assert a + "" == a;
  }

  lemma WordThenString(V: Lexis, a: string, n: nat)
    requires V.Valid() && 2 <= n <= |a| && Settles(V, a[n..])
    requires Lead(V, a + SENTINEL).len == 1 && Lead(V, (a + SENTINEL)[1..]) == Lexeme(String, n - 1)
    ensures Settles(V, a)
    ensures Kinds(V, a) == (Rep(Lead(V, a + SENTINEL).kind, 1) + Rep(String, n - 1)) + Kinds(V, a[n..])
  {
    hide Lead;
    var b := a[1..];
    assert (a + SENTINEL)[1..] == b + SENTINEL;
    assert a + "" == a && b + "" == b;
    LeadCloses(V, a, "");
    LeadCloses(V, b, "");
    assert b[n - 1..] == a[n..];
  }

  /** An expression accepted by the tokenizer is one for the engine. */
  lemma AlikeAccepted(C: Lexis, V: Lexis, expr: string)
    requires C.Valid() && V.Valid() && Engines(C, V) && ExpressionOutcome(C, expr) == Pass
    requires Alike(C, V, Trim(C.space, expr))
    ensures ExpressionOutcome(V, expr) == Pass
  {
    hide ExpressionOutcome, Trim, Settles, Alike, Nest;
    var x := Trim(C.space, expr);
    ExpressionFragment(C, expr);
    AlikeSettles(C, V, x);
    NestRoles(x, Kinds(C, x), Kinds(V, x), 0);
    ExpressionFragment(V, expr);
  }

  /** Without a backslash typed strings end alike. */
  lemma {:induction false} PlainAlike(C: Lexis, V: Lexis, a: string)
    requires C.Valid() && Engines(C, V) && '\\' !in a
    ensures Alike(C, V, a)
    decreases |a|
  {
    hide Lead, QuotedBody;
    if a != [] {
      var s := a + SENTINEL;
      var n := Lead(C, s).len;
      if n <= |a| { PlainAlike(C, V, a[n..]); }
      if Typed(C, s) {
        TypedSteps(C, V, s);
        NoEscape(s[2..], s[0] in C.escaping, EscapesAfter(V, s[0]));
      }
    }
  }

  lemma {:induction false} NoEscape(s: string, b: bool, c: bool)
    requires '\\' !in s
    ensures QuotedBody(s, '\'', b) == QuotedBody(s, '\'', c)
  {
    if s != [] {
      assert s[0] in s;
      if |s| > 1 && s[0] == '\'' && s[1] == '\'' {
        NoEscape(s[2..], b, c);
      } else if s[0] != '\'' {
        NoEscape(s[1..], b, c);
      }
    }
  }

  // ---------- CREATE TABLE ----------

  /** The expressions of a column whose typed strings end alike. */
  predicate AlikeDefault(C: Lexis, V: Lexis, def: ColumnDefault) {
    def.kind == DefaultExpr ==> Alike(C, V, Trim(C.space, def.value))
  }

  lemma AlikeColumn(C: Lexis, V: Lexis, c: ColumnDef)
    requires C.Valid() && V.Valid() && Engines(C, V) && ColumnOutcome(C, c) == Pass && AlikeDefault(C, V, c.default)
    ensures ColumnOutcome(V, c) == Pass
  {
    hide ExpressionOutcome, Alike, Trim, NumberLiteral, CharNest;
    if c.default.kind == DefaultExpr { AlikeAccepted(C, V, c.default.value); }
  }

  lemma SameColumnSQL(C: Lexis, V: Lexis, e: Engine, c: ColumnDef)
    requires C.space == V.space
    ensures ColumnDefSQL(C, e, c) == ColumnDefSQL(V, e, c)
  {
    hide Trim, QuoteIdent, QuoteString, BareFamily;
  }

  lemma SameSQL(C: Lexis, V: Lexis, e: Engine, c: CreateTable)
    requires C.space == V.space
    ensures CreateTableSQL(C, e, c) == CreateTableSQL(V, e, c) && Definitions(C, e, c) == Definitions(V, e, c)
  {
    hide ColumnDefSQL, KeyClause, KeyNames, Join, CreateTableHead;
    forall i | 0 <= i < |c.columns|
      ensures ColumnDefs(C, e, c.columns)[i] == ColumnDefs(V, e, c.columns)[i]
    {
      SameColumnSQL(C, V, e, c.columns[i]);
    }
    assert ColumnDefs(C, e, c.columns) == ColumnDefs(V, e, c.columns);
  }

  /** What the engine itself reads an accepted CREATE TABLE as: the same list,
      whenever the typed strings of its expressions end alike. */
  lemma EngineReads(C: Lexis, V: Lexis, e: Engine, c: CreateTable)
    requires C.Valid() && V.Valid() && Engines(C, V) && C.d == e.For() && Accepts(C, c)
    requires forall i :: 0 <= i < |c.columns| ==> AlikeDefault(C, V, c.columns[i].default)
    ensures var sql := CreateTableSQL(C, e, c);
            ReadAll(Before, sql, Kinds(V, sql)) == After(Items(Definitions(C, e, c)))
  {
    hide ReadAll, Items, Definitions, CreateTableSQL, Kinds, ColumnOutcome, AlikeDefault;
    forall i | 0 <= i < |c.columns|
      ensures ColumnOutcome(V, c.columns[i]) == Pass
    {
      AlikeColumn(C, V, c.columns[i]);
    }
    SameSQL(C, V, e, c);
    CreateTableReads(V, e, c);
  }

  // ---------- the input ----------

  /** A national string that holds a backslash, as an engine that has them
      escape only after E reads it: it ends at the second quote. */
  const NATIONAL: string := "N'\\','"

  /** The tokenizer takes it for one string and accepts it; such an engine sees
      a comma outside parentheses and a string left open. */
  lemma NationalDiffers(C: Lexis, V: Lexis)
    requires C.Valid() && V.Valid() && Engines(C, V) && Coded(C) && C.d == Postgres
    requires V.prefix == C.prefix && V.escaping == {'E', 'e'}
    ensures ExpressionOutcome(C, NATIONAL) == Pass && ExpressionOutcome(V, NATIONAL) != Pass
  {
    hide ExpressionOutcome, Settles, Nest, Kinds, Lead, Trim;
    NationalTrimmed(C);
    NationalSettles(C);
    NationalOpen(V);
    ExpressionFragment(C, NATIONAL);
    ExpressionFragment(V, NATIONAL);
  }

  lemma NationalTrimmed(C: Lexis)
    requires C.Valid()
    ensures Trim(C.space, NATIONAL) == NATIONAL
  {
    assert NATIONAL[0] == 'N' && NATIONAL[|NATIONAL| - 1] == '\'' && 'N' in C.letter && '\'' !in C.space;
    assert NATIONAL[0..] == NATIONAL;
  }

  /** How far the body of the string goes, with and without escapes. */
  lemma NationalBodies()
    ensures QuotedBody("\\',' )", '\'', true) == 4 && QuotedBody("\\',' )", '\'', false) == 2
  {
    var s := "\\',' )";
    assert s[1..] == "',' )" && s[2..] == ",' )" && ",' )"[1..] == "' )";
    assert QuotedBody("' )", '\'', true) == 1;
    assert QuotedBody(",' )", '\'', true) == 2;
    assert QuotedBody("',' )", '\'', false) == 1;
  }

  lemma NationalStep(L: Lexis)
    requires L.Valid() && 'N' in L.prefix
    ensures var s := NATIONAL + SENTINEL;
            Lead(L, s) == Lexeme(String, 2 + QuotedBody("\\',' )", '\'', 'N' in L.escaping))
  {
    hide Lead, QuotedBody;
    var s := NATIONAL + SENTINEL;
    assert s[2..] == "\\',' )" && s[0] == 'N' && s[1] == '\'' && 'N' in L.letter;
    TypedSteps(L, L, s);
  }

  lemma NationalSettles(C: Lexis)
    requires C.Valid() && Coded(C)
    ensures Fragment(C, NATIONAL)
  {
    hide Lead, Nest;
    NationalStep(C);
    NationalBodies();
    assert NATIONAL[6..] == "" && |NATIONAL| == 6;
    LeadCloses(C, NATIONAL, "");
    assert NATIONAL + "" == NATIONAL;
    assert Lead(C, NATIONAL) == Lexeme(String, 6) == Lead(C, NATIONAL + SENTINEL);
    assert Settles(C, NATIONAL[6..]) && Kinds(C, NATIONAL[6..]) == [];
    StepKinds(C, NATIONAL, 6);
    assert Kinds(C, NATIONAL) == Rep(String, 6);
    NestNone(NATIONAL, Kinds(C, NATIONAL), 0);
  }

  lemma NationalOpen(V: Lexis)
    requires V.Valid() && 'N' in V.prefix && 'N' !in V.escaping
    ensures !Settles(V, NATIONAL)
  {
    hide Lead;
    NationalStep(V);
    NationalBodies();
    assert NATIONAL[4..] == ",'" && ",'"[1..] == "'";
    QuoteOpen(V);
    assert !Settles(V, "'");
    assert !Settles(V, ",'");
    assert Lead(V, NATIONAL + SENTINEL).len == 4;
  }

  lemma QuoteOpen(V: Lexis)
    requires V.Valid()
    ensures Lead(V, ",'" + SENTINEL).len == 1 && Lead(V, "'" + SENTINEL).len == 3
  {
    assert ',' !in V.space && ',' !in V.digit && '\'' !in V.space;
    assert ("'" + SENTINEL)[1..] == " )" && " )"[1..] == ")" && ")"[1..] == "";
    assert QuotedBody(")", '\'', V.Backslashes()) == 1;
    assert QuotedBody(" )", '\'', V.Backslashes()) == 2;
  }
}
