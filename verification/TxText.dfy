/** Which statements an interactive transaction refuses (the classification half
    of internal/db/tx.go and significantTokens of internal/db/statements.go). */
module TxText {
  import opened Text
  import opened Sqlhl
  import opened Literal
  import opened Ddl

  /** One significant token: its text, and whether it is a bare word. */
  datatype SqlToken = SqlToken(text: string, word: bool)

  /** The tokens that are neither white space nor comments. */
  function Significant(src: string, toks: seq<Token>): (r: seq<SqlToken>)
    requires forall i :: 0 <= i < |toks| ==> toks[i].start <= toks[i].end <= |src|
  {
    if toks == [] then []
    else
      var t := toks[0];
      (if t.kind == Plain || t.kind == Comment then []
       else [SqlToken(t.Text(src), t.kind == Keyword || t.kind == Ident)]) + Significant(src, toks[1..])
  }

  lemma TokensInBounds(L: Lexis, src: string)
    ensures forall i :: 0 <= i < |Runs(Kinds(L, src))| ==>
              var t := Runs(Kinds(L, src))[i]; t.start <= t.end <= |src|
  {
    RunsChained(Kinds(L, src));
  }

  function SignificantTokens(L: Lexis, sql: string): seq<SqlToken> {
    TokensInBounds(L, sql);
    Significant(sql, Runs(Kinds(L, sql)))
  }

  function UpperAll(s: string): (r: string)
    ensures |r| == |s|
  {
    seq(|s|, i requires 0 <= i < |s| => Upper(s[i]))
  }

  /** The token at i is the word w, in any case. */
  predicate WordAt(toks: seq<SqlToken>, i: nat, w: string) {
    i < |toks| && toks[i].word && UpperAll(toks[i].text) == w
  }

  /** ROLLBACK [WORK | TRANSACTION] TO ...: the partial rollback. */
  predicate IsRollbackToSavepoint(L: Lexis, sql: string) {
    var toks := SignificantTokens(L, sql);
    && |toks| >= 2 && UpperAll(toks[0].text) == "ROLLBACK"
    && var i := if WordAt(toks, 1, "WORK") || WordAt(toks, 1, "TRANSACTION") then 2 else 1;
       WordAt(toks, i, "TO")
  }

  function TrimLeftAt(s: string): string {
    if s != [] && s[0] == '@' then TrimLeftAt(s[1..]) else s
  }

  function TrimPrefix(s: string, p: string): string {
    if p <= s then s[|p|..] else s
  }

  predicate NamesAutocommit(t: SqlToken) {
    TrimPrefix(TrimPrefix(UpperAll(TrimLeftAt(t.text)), "SESSION."), "LOCAL.") == "AUTOCOMMIT"
  }

  /** BEGIN, COMMIT and their like: statements that begin, end or reconfigure a
      transaction on their own. */
  predicate IsTxControl(e: Engine, L: Lexis, sql: string) {
    var toks := SignificantTokens(L, sql);
    && toks != [] && toks[0].word
    && var w := UpperAll(toks[0].text);
       || w == "BEGIN" || w == "START" || w == "COMMIT" || w == "END" || w == "ABORT"
       || (w == "ROLLBACK" && !IsRollbackToSavepoint(L, sql))
       || (w == "SET" && e.MySQLish() && exists i :: 1 <= i < |toks| && NamesAutocommit(toks[i]))
  }

  const ImplicitCommitWords: set<string> := {
    "CREATE", "ALTER", "DROP", "RENAME", "TRUNCATE", "GRANT", "REVOKE", "LOCK", "UNLOCK", "ANALYZE", "OPTIMIZE",
    "REPAIR", "CACHE", "FLUSH", "RESET", "INSTALL", "UNINSTALL" }

  /** The MySQL and MariaDB statements that commit an open transaction first. */
  predicate CommitsImplicitly(e: Engine, L: Lexis, sql: string) {
    var toks := SignificantTokens(L, sql);
    && e.MySQLish() && toks != [] && toks[0].word
    && var w := UpperAll(toks[0].text);
       w in ImplicitCommitWords && !((w == "CREATE" || w == "DROP") && WordAt(toks, 1, "TEMPORARY"))
  }

  /** A partial rollback is neither transaction control nor an implicit
      commit, so the three refusals never overlap with it. */
  lemma SavepointIsAdmissible(e: Engine, L: Lexis, sql: string)
    requires IsRollbackToSavepoint(L, sql)
    ensures !IsTxControl(e, L, sql) && !CommitsImplicitly(e, L, sql)
  {
    assert "ROLLBACK" !in ImplicitCommitWords by {
      assert forall w :: w in ImplicitCommitWords ==> |w| == 8 ==> w[0] == 'T' || w[0] == 'O';
    }
    var toks := SignificantTokens(L, sql);
    assert UpperAll(toks[0].text)[0] == 'R';
  }

  // ---------- what the server makes of a statement ----------

  /** What a server takes a statement for, whatever the session thinks of it. */
  datatype StatementKind = SavepointRollback | Control | ImplicitCommit | Ordinary

  predicate Says(toks: seq<SqlToken>, i: nat, word: string) {
    i < |toks| && toks[i].word && Spells(toks[i].text, word)
  }

  /** ROLLBACK TO, with WORK or TRANSACTION between the two or without. */
  predicate PartialRollback(toks: seq<SqlToken>) {
    && toks != [] && Spells(toks[0].text, "ROLLBACK")
    && (Says(toks, 1, "TO") || ((Says(toks, 1, "WORK") || Says(toks, 1, "TRANSACTION")) && Says(toks, 2, "TO")))
  }

  /** The variable autocommit, of the session or of no scope that is named, with
      any number of @ in front. */
  ghost predicate IsAutocommit(text: string) {
    exists n: nat :: n <= |text| && (forall i :: 0 <= i < n ==> text[i] == '@') && SpellsAutocommit(text[n..])
  }

  predicate SpellsAutocommit(name: string) {
    || Spells(name, "AUTOCOMMIT") || Spells(name, "SESSION.AUTOCOMMIT")
    || Spells(name, "LOCAL.AUTOCOMMIT") || Spells(name, "SESSION.LOCAL.AUTOCOMMIT")
  }

  /** The statement begins, ends or reconfigures the transaction. */
  ghost predicate ServerControls(e: Engine, toks: seq<SqlToken>) {
    || Says(toks, 0, "BEGIN") || Says(toks, 0, "START")
    || Says(toks, 0, "COMMIT") || Says(toks, 0, "END") || Says(toks, 0, "ABORT")
    || (Says(toks, 0, "ROLLBACK") && !PartialRollback(toks))
    || ((e == EngineMySQL || e == EngineMariaDB) && Says(toks, 0, "SET")
        && exists i :: 1 <= i < |toks| && IsAutocommit(toks[i].text))
  }

  /** The statement commits the open transaction before it runs: on MySQL and
      MariaDB the changes of schema, accounts, locks and tables, but for
      temporary tables. */
  ghost predicate ServerCommits(e: Engine, toks: seq<SqlToken>) {
    && (e == EngineMySQL || e == EngineMariaDB)
    && (|| Says(toks, 0, "ALTER") || Says(toks, 0, "ANALYZE") || Says(toks, 0, "CACHE") || Says(toks, 0, "FLUSH")
        || Says(toks, 0, "GRANT") || Says(toks, 0, "INSTALL") || Says(toks, 0, "LOCK") || Says(toks, 0, "OPTIMIZE")
        || Says(toks, 0, "RENAME") || Says(toks, 0, "REPAIR") || Says(toks, 0, "RESET") || Says(toks, 0, "REVOKE")
        || Says(toks, 0, "TRUNCATE") || Says(toks, 0, "UNINSTALL") || Says(toks, 0, "UNLOCK")
        || ((Says(toks, 0, "CREATE") || Says(toks, 0, "DROP")) && !Says(toks, 1, "TEMPORARY")))
  }

  ghost function ServerKind(e: Engine, L: Lexis, sql: string): StatementKind {
    var toks := SignificantTokens(L, sql);
    if PartialRollback(toks) then SavepointRollback
    else if ServerControls(e, toks) then Control
    else if ServerCommits(e, toks) then ImplicitCommit
    else Ordinary
  }

  // ---------- the session's classes are the server's ----------

  /** A word of a statement: capitals, and the point of a qualified name. */
  predicate Capitals(word: string) { forall i :: 0 <= i < |word| ==> 'A' <= word[i] <= 'Z' || word[i] == '.' }

  lemma SpellsIsUpper(text: string, word: string)
    requires Capitals(word)
    ensures Spells(text, word) <==> UpperAll(text) == word
  {
    if |text| == |word| {
      var u := UpperAll(text);
      forall i | 0 <= i < |word|
        ensures (text[i] == word[i] || text[i] == LowerChar(word[i])) <==> u[i] == word[i]
      {
        assert u[i] == Upper(text[i]);
        assert 'A' <= word[i] <= 'Z' || word[i] == '.';
      }
      assert Spells(text, word) <==> forall i :: 0 <= i < |word| ==> u[i] == word[i];
    }
  }

  lemma SaysIsWordAt(toks: seq<SqlToken>, i: nat, word: string)
    requires Capitals(word)
    ensures Says(toks, i, word) <==> WordAt(toks, i, word)
  {
    hide Spells, UpperAll;
    if i < |toks| { SpellsIsUpper(toks[i].text, word); }
  }

  /** The session finds the partial rollbacks. */
  lemma PartialFound(L: Lexis, sql: string)
    ensures IsRollbackToSavepoint(L, sql) <==> PartialRollback(SignificantTokens(L, sql))
  {
    hide Says, Spells, UpperAll, SignificantTokens;
    var toks := SignificantTokens(L, sql);
    if toks != [] { SpellsIsUpper(toks[0].text, "ROLLBACK"); }
    SaysIsWordAt(toks, 1, "TO");
    SaysIsWordAt(toks, 1, "WORK");
    SaysIsWordAt(toks, 1, "TRANSACTION");
    SaysIsWordAt(toks, 2, "TO");
  }

  /** Dropping every @ in front leaves no choice of how many. */
  lemma {:induction false} AtsDropped(text: string, n: nat)
    requires n <= |text| && (forall i :: 0 <= i < n ==> text[i] == '@') && (n < |text| ==> text[n] != '@')
    ensures TrimLeftAt(text) == text[n..]
  {
    if n > 0 {
      AtsDropped(text[1..], n - 1);
      assert text[1..][n - 1..] == text[n..];
    } else {
      assert text[0..] == text;
    }
  }

  lemma {:induction false} AtsCounted(text: string) returns (n: nat)
    ensures n <= |text| && (forall i :: 0 <= i < n ==> text[i] == '@') && (n < |text| ==> text[n] != '@')
  {
    if text == [] || text[0] != '@' {
      n := 0;
    } else {
      var m := AtsCounted(text[1..]);
      n := m + 1;
      assert forall i :: 0 < i < |text| ==> text[i] == text[1..][i - 1];
    }
  }

  lemma AutocommitFound(t: SqlToken)
    ensures NamesAutocommit(t) <==> IsAutocommit(t.text)
  {
    hide UpperAll, Spells;
    var text := t.text;
    var n := AtsCounted(text);
    AtsDropped(text, n);
    var name := text[n..];
    PrefixesDropped(name);
    forall m: nat | m <= |text| && (forall i :: 0 <= i < m ==> text[i] == '@') && SpellsAutocommit(text[m..])
      ensures m == n
    {
      NoAtInFront(text[m..]);
    }
  }

  lemma NoAtInFront(name: string)
    requires SpellsAutocommit(name)
    ensures name != [] && name[0] != '@'
  {
  }

  lemma PrefixesDropped(name: string)
    ensures TrimPrefix(TrimPrefix(UpperAll(name), "SESSION."), "LOCAL.") == "AUTOCOMMIT" <==> SpellsAutocommit(name)
  {
    SpellsIsUpper(name, "AUTOCOMMIT");
    SpellsIsUpper(name, "SESSION.AUTOCOMMIT");
    SpellsIsUpper(name, "LOCAL.AUTOCOMMIT");
    SpellsIsUpper(name, "SESSION.LOCAL.AUTOCOMMIT");
    hide UpperAll, Spells;
    PrefixesOf(UpperAll(name));
  }

  lemma PrefixesOf(u: string)
    ensures TrimPrefix(TrimPrefix(u, "SESSION."), "LOCAL.") == "AUTOCOMMIT" <==>
            u == "AUTOCOMMIT" || u == "SESSION.AUTOCOMMIT" || u == "LOCAL.AUTOCOMMIT" || u == "SESSION.LOCAL.AUTOCOMMIT"
  {
    assert "AUTOCOMMIT"[0] == 'A' && "LOCAL.AUTOCOMMIT"[0] == 'L' && "SESSION."[0] == 'S' && "LOCAL."[0] == 'L';
    PrefixOf(u, "SESSION.", "AUTOCOMMIT");
    PrefixOf(u, "SESSION.", "LOCAL.AUTOCOMMIT");
    PrefixOf(TrimPrefix(u, "SESSION."), "LOCAL.", "AUTOCOMMIT");
    assert "LOCAL." + "AUTOCOMMIT" == "LOCAL.AUTOCOMMIT";
    assert "SESSION." + "AUTOCOMMIT" == "SESSION.AUTOCOMMIT";
    assert "SESSION." + "LOCAL.AUTOCOMMIT" == "SESSION.LOCAL.AUTOCOMMIT";
  }

  /** A word that has not the prefix itself is left exactly with the prefix or
      without it. */
  lemma PrefixOf(u: string, p: string, rest: string)
    requires !(p <= rest)
    ensures TrimPrefix(u, p) == rest <==> u == rest || u == p + rest
  {
    if p <= u { assert u == p + u[|p|..]; }
    assert p <= p + rest && (p + rest)[|p|..] == rest;
  }

  lemma ControlFound(e: Engine, L: Lexis, sql: string)
    ensures IsTxControl(e, L, sql) <==> ServerControls(e, SignificantTokens(L, sql))
  {
    hide Says, WordAt, NamesAutocommit, IsAutocommit, IsRollbackToSavepoint, PartialRollback, SignificantTokens;
    var toks := SignificantTokens(L, sql);
    PartialFound(L, sql);
    SaysIsWordAt(toks, 0, "BEGIN");
    SaysIsWordAt(toks, 0, "START");
    SaysIsWordAt(toks, 0, "COMMIT");
    SaysIsWordAt(toks, 0, "END");
    SaysIsWordAt(toks, 0, "ABORT");
    SaysIsWordAt(toks, 0, "ROLLBACK");
    SaysIsWordAt(toks, 0, "SET");
    NoWords();
    if toks != [] { FirstWordIs(toks); }
    forall i | 0 <= i < |toks|
      ensures NamesAutocommit(toks[i]) <==> IsAutocommit(toks[i].text)
    {
      AutocommitFound(toks[i]);
    }
  }

  lemma FirstWordIs(toks: seq<SqlToken>)
    requires toks != []
    ensures forall w: string :: WordAt(toks, 0, w) <==> toks[0].word && UpperAll(toks[0].text) == w
  {
  }

  lemma CommitFound(e: Engine, L: Lexis, sql: string)
    ensures CommitsImplicitly(e, L, sql) <==> ServerCommits(e, SignificantTokens(L, sql))
  {
    hide Says, WordAt, SignificantTokens;
    var toks := SignificantTokens(L, sql);
    NoWords();
    if toks != [] {
      FirstWordIs(toks);
      FirstWords(toks);
      SaysIsWordAt(toks, 1, "TEMPORARY");
    }
  }

  lemma NoWords()
    ensures forall w: string :: !Says([], 0, w)
  {
  }

  lemma FirstWords(toks: seq<SqlToken>)
    requires toks != []
    ensures forall w :: w in ImplicitCommitWords ==> (Says(toks, 0, w) <==> WordAt(toks, 0, w))
  {
    hide Says, WordAt;
    forall w | w in ImplicitCommitWords
      ensures Says(toks, 0, w) <==> WordAt(toks, 0, w)
    {
      SaysIsWordAt(toks, 0, w);
    }
  }

  /** The session's three questions find exactly the kinds the server knows. */
  lemma Classified(e: Engine, L: Lexis, sql: string)
    ensures IsRollbackToSavepoint(L, sql) <==> ServerKind(e, L, sql) == SavepointRollback
    ensures IsTxControl(e, L, sql) <==> ServerKind(e, L, sql) == Control
    ensures CommitsImplicitly(e, L, sql) <==> ServerKind(e, L, sql) == ImplicitCommit
  {
    hide ServerControls, ServerCommits, PartialRollback, IsTxControl, CommitsImplicitly, IsRollbackToSavepoint;
    PartialFound(L, sql);
    ControlFound(e, L, sql);
    CommitFound(e, L, sql);
    if IsRollbackToSavepoint(L, sql) {
      SavepointIsAdmissible(e, L, sql);
    }
    NotBoth(e, L, sql);
  }

  lemma NotBoth(e: Engine, L: Lexis, sql: string)
    ensures !(IsTxControl(e, L, sql) && CommitsImplicitly(e, L, sql))
  {
    hide SignificantTokens, UpperAll, IsRollbackToSavepoint, NamesAutocommit;
  }
}
