/** Inputs at which a promised DEFAULT spelling fails: each is accepted, written
    as it is, and not a default where it stands. */
module AlterInputs {
  import opened Wrappers
  import opened Text
  import opened Sqlhl
  import opened SqlhlLocality
  import opened Literal
  import opened Fragments
  import opened Ddl
  import opened AlterColumns

  // ---------- parentheses ----------

  const GROUPS: string := "(1) + (2)"

  /** mysqlExprDefault takes two groups for one: it leaves them as they are, and
      so not in parentheses, though the expression is accepted. */
  lemma TwoGroups(S: Server, L: Lexis, at: Place)
    requires L.Valid() && L.d == MySQL
    ensures ExpressionOutcome(L, GROUPS) == Pass
    ensures MysqlExprDefault(L, GROUPS) == GROUPS
    ensures !Takes(S, L, EngineMySQL, at, GROUPS)
  {
    GroupsAccepted(L);
    GroupsBare();
    hide ExpressionOutcome, BareFamily, Trim, Wrapped, NumberLiteral, Quoted;
    ParenthesizedTaken(S, L, EngineMySQL, at, GROUPS);
  }

  lemma GroupsBare()
    ensures GROUPS[0] == '(' && GROUPS[|GROUPS| - 1] == ')' && !BareFamily(GROUPS)
  {
    assert Upper(GROUPS[0]) == '(';
  }

  lemma GroupsAccepted(L: Lexis)
    requires L.Valid()
    ensures ExpressionOutcome(L, GROUPS) == Pass && !Wrapped(L, GROUPS) && Trim(L.space, GROUPS) == GROUPS
  {
    hide ExpressionOutcome, Lead, Settles, Nest, CharNest, Trim;
    var inner := "1) + (2";
    assert Inside(GROUPS) == inner;
    assert '(' !in L.space && ')' !in L.space && '1' !in L.space && '2' !in L.space by {
      assert '1' in L.digit && '2' in L.digit;
    }
    TrimKeeps(L.space, GROUPS);
    TrimKeeps(L.space, inner);
    GroupsNest();
    SimpleFragment(L, GROUPS);
    ExpressionFragment(L, GROUPS);
    SimpleSettles(L, inner);
    CharNestIsNest(inner, Kinds(L, inner), 0);
    ExpressionFragment(L, inner);
  }

  lemma GroupsNest()
    ensures CharNest(GROUPS, 0) == Depth(0) && CharNest("1) + (2", 0) == Unopened
  {
    hide CharNest;
    assert GROUPS == "(" + "1" + ")" + " + (2)" && "1) + (2" == "1" + (")" + " + (2");
    assert " + (2)" == " + " + ("(" + "2" + ")" + "") && "(" + "2" + ")" + "" == "(2)";
    NestGroup("1", " + (2)", 0);
    NestPlain(" + ", "(2)", 0);
    NestGroup("2", "", 0);
    NestNothing(0);
    NestUnopened("1", " + (2");
  }

  lemma NestUnopened(s: string, rest: string)
    requires Plain(s)
    ensures CharNest(s + (")" + rest), 0) == Unopened
  {
    NestPlain(s, ")" + rest, 0);
  }

  predicate Plain(s: string) { forall i :: 0 <= i < |s| ==> !IsParenOrComma(s[i]) }

  lemma {:induction false} NestPlain(s: string, rest: string, depth: nat)
    requires Plain(s)
    ensures CharNest(s + rest, depth) == CharNest(rest, depth)
  {
    if s == [] {
      assert s + rest == rest;
    } else {
      assert (s + rest)[1..] == s[1..] + rest;
      NestPlain(s[1..], rest, depth);
    }
  }

  lemma NestGroup(inner: string, rest: string, depth: nat)
    requires Plain(inner)
    ensures CharNest("(" + inner + ")" + rest, depth) == CharNest(rest, depth)
  {
    assert ("(" + inner + ")" + rest)[1..] == inner + (")" + rest) && (")" + rest)[1..] == rest;
    NestPlain(inner, ")" + rest, depth + 1);
  }

  // ---------- bare expressions ----------

  lemma SimpleAccepted(L: Lexis, x: string)
    requires L.Valid() && Simple(x) && CharNest(x, 0) == Depth(0)
    requires x != [] && !IsAsciiSpace(x[0]) && !IsAsciiSpace(x[|x| - 1])
    ensures Trim(L.space, x) == x && ExpressionOutcome(L, x) == Pass
  {
    hide CharNest, ExpressionOutcome, Trim;
    assert SimpleChar(x[0]) && SimpleChar(x[|x| - 1]);
    TrimKeeps(L.space, x);
    hide Simple, SimpleChar;
    SimpleFragment(L, x);
    ExpressionFragment(L, x);
  }

  /** What starts like the family is left bare and taken only as the family, in a
      definition that it suits. */
  lemma BareLeft(S: Server, L: Lexis, x: string, at: Place)
    requires BareFamily(x) && Trim(L.space, x) == x
    ensures MysqlExprDefault(L, x) == x
    ensures Takes(S, L, EngineMySQL, at, x) <==> at.InDefinition? && InFamily(x) && Suits(L, at.typ, x)
  {
    hide Constant, Wrapped, Trim, BareFamily, InFamily, Suits;
    BareStands(L, x);
  }

  const TOMORROW: string := "NOW() + INTERVAL 1 DAY"

  /** mysqlExprDefault goes by the first letters: it leaves this bare too, which
      is accepted and no text of the family. */
  lemma StartsLikeNow(S: Server, L: Lexis, at: Place)
    requires L.Valid() && L.d == MySQL
    ensures ExpressionOutcome(L, TOMORROW) == Pass && MysqlExprDefault(L, TOMORROW) == TOMORROW
    ensures !Takes(S, L, EngineMySQL, at, TOMORROW)
  {
    hide CharNest, ExpressionOutcome, MysqlExprDefault, Takes, BareFamily, InFamily, Simple;
    TomorrowNests();
    TomorrowBare();
    TomorrowSimple();
    SimpleAccepted(L, TOMORROW);
    BareLeft(S, L, TOMORROW, at);
  }

  const TODAY: string := "CURRENT_DATE"

  /** The list of mysqlExprDefault has two functions that are not of the family. */
  lemma TodayLeftBare(S: Server, L: Lexis, at: Place)
    requires L.Valid() && L.d == MySQL
    ensures ExpressionOutcome(L, TODAY) == Pass && MysqlExprDefault(L, TODAY) == TODAY
    ensures !Takes(S, L, EngineMySQL, at, TODAY)
  {
    hide CharNest, ExpressionOutcome, MysqlExprDefault, Takes, BareFamily, InFamily, Simple;
    PlainWord(TODAY);
    TodayBare();
    TodaySimple();
    SimpleAccepted(L, TODAY);
    BareLeft(S, L, TODAY, at);
  }

  const STAMP: string := "CURRENT_TIMESTAMP"

  /** The family itself is left bare wherever it stands. MySQL takes it for a
      timestamp, for no date, in no other precision than the column's, and not
      after SET DEFAULT. */
  lemma StampSuits(S: Server, L: Lexis)
    requires L.Valid() && L.d == MySQL
    ensures ExpressionOutcome(L, STAMP) == Pass && MysqlExprDefault(L, STAMP) == STAMP
    ensures Takes(S, L, EngineMySQL, InDefinition("timestamp", false), STAMP)
    ensures !Takes(S, L, EngineMySQL, InDefinition("date", false), STAMP)
    ensures !Takes(S, L, EngineMySQL, InDefinition("datetime(6)", false), STAMP)
    ensures !Takes(S, L, EngineMySQL, InSetDefault, STAMP)
  {
    hide CharNest, ExpressionOutcome, MysqlExprDefault, Takes, BareFamily, InFamily, Simple, Suits;
    StampAccepted(L);
    StampTypes(L);
    BareLeft(S, L, STAMP, InDefinition("timestamp", false));
    BareLeft(S, L, STAMP, InDefinition("date", false));
    BareLeft(S, L, STAMP, InDefinition("datetime(6)", false));
    BareLeft(S, L, STAMP, InSetDefault);
  }

  lemma StampAccepted(L: Lexis)
    requires L.Valid()
    ensures ExpressionOutcome(L, STAMP) == Pass && Trim(L.space, STAMP) == STAMP && BareFamily(STAMP) && InFamily(STAMP)
  {
    hide CharNest, ExpressionOutcome, BareFamily, InFamily, Simple;
    PlainWord(STAMP);
    StampBare();
    StampSimple();
    SimpleAccepted(L, STAMP);
  }

  lemma PlainWord(s: string)
    requires Plain(s)
    ensures CharNest(s, 0) == Depth(0)
  {
    assert s + "" == s;
    NestPlain(s, "", 0);
  }

  lemma StampBare()
    ensures BareFamily(STAMP) && InFamily(STAMP)
  {
    assert HasPrefixFold(STAMP, "CURRENT_TIMESTAMP");
    assert STAMP[17..] == "" && Trim(Blanks, "") == "";
    assert FamilyWord(STAMP, "CURRENT_TIMESTAMP");
  }

  lemma StampSimple()
    ensures Simple(STAMP)
  {
  }

  lemma StampTypes(L: Lexis)
    requires L.Valid()
    ensures Suits(L, "timestamp", STAMP) && !Suits(L, "date", STAMP) && !Suits(L, "datetime(6)", STAMP)
  {
    hide PrecisionOf, Temporal;
    NoPrecision(STAMP);
    NoPrecision("timestamp");
    SixDigits();
    TimestampKind(L);
    DateKind(L);
  }

  lemma TimestampKind(L: Lexis)
    ensures Temporal(L, "timestamp")
  {
    assert HasPrefixFold("timestamp", "TIMESTAMP");
  }

  lemma DateKind(L: Lexis)
    ensures !Temporal(L, "date")
  {
    assert |"date"| == 4;
  }

  lemma NoPrecision(s: string)
    requires '(' !in s
    ensures PrecisionOf(s) == 0
  {
  }

  lemma SixDigits()
    ensures PrecisionOf("datetime(6)") == 6
  {
    hide Run, IndexOrEnd, DigitsValue;
    var s := "datetime(6)";
    IndexOrEndUnique(s, '(', 8);
    var r := s[9..];
    assert r == "6)";
    NoBlank(r);
    RunUnique(AsciiDigits, r, 1);
    assert r[..1] == "6";
    OneDigit();
  }

  lemma NoBlank(r: string)
    requires r == "6)"
    ensures Run(Blanks, r) == 0 && r[0..] == r
  {
  }

  lemma OneDigit()
    ensures DigitsValue("6") == 6
  {
    assert "6"[..0] == "";
  }

  lemma TodayBare()
    ensures BareFamily(TODAY) && !InFamily(TODAY)
  {
    assert HasPrefixFold(TODAY, "CURRENT_DATE");
    assert Upper(TODAY[0]) == 'C' && Upper(TODAY[8]) == 'D';
  }

  lemma TodaySimple()
    ensures Simple(TODAY)
  {
  }

  lemma TomorrowNests()
    ensures CharNest(TOMORROW, 0) == Depth(0)
  {
    hide CharNest;
    var later := " + INTERVAL 1 DAY";
    assert TOMORROW == "NOW" + ("(" + "" + ")" + later) && later + "" == later;
    NestPlain("NOW", "(" + "" + ")" + later, 0);
    NestGroup("", later, 0);
    NestPlain(later, "", 0);
    assert CharNest("", 0) == Depth(0) by { NestNothing(0); }
  }

  lemma NestNothing(depth: nat)
    ensures CharNest("", depth) == Depth(depth)
  {
  }

  lemma TomorrowBare()
    ensures BareFamily(TOMORROW) && !InFamily(TOMORROW)
  {
    assert HasPrefixFold(TOMORROW, "NOW(");
    assert Upper(TOMORROW[0]) == 'N';
    var r := TOMORROW[3..];
    assert r[0] == '(' && r[|r| - 1] == 'Y' && r[0] !in Blanks && r[|r| - 1] !in Blanks;
    TrimKeeps(Blanks, r);
  }

  lemma TomorrowSimple()
    ensures Simple(TOMORROW)
  {
  }

  // ---------- a retype ----------

  function StampColumn(): Column { Column("at", "timestamp", false, Some(STAMP), GeneratedMark()) }

  /** From timestamp to date, the default kept. */
  function ToDate(): AlterColumn { AlterColumn(StampColumn(), "", "date", true, ColumnDefault(DefaultKeep, "")) }

  /** A column that loses its DATETIME or TIMESTAMP cannot keep a default of the
      family: the CHANGE COLUMN restates it and fails. */
  lemma RetypeLosesStamp(S: Server, L: Lexis, t: Table, i: nat)
    requires L.Valid() && L.d == MySQL && Distinct(t) && i < |t|
    requires t[i] == ServerColumn("at", "timestamp", true, Some(Exp(STAMP)), false, None)
    ensures Rendered(L, EngineMySQL, ToDate()).Statements?
    ensures ExecAll(S, L, EngineMySQL, Rendered(L, EngineMySQL, ToDate()).list, t) == None
  {
    hide ExecAll, Rendered, Takes, Allowed, NameFree, Target, UpdateSuits, Suits, InFamily, BareFamily, ExpressionOutcome;
    var e, c := EngineMySQL, ToDate();
    ToDateRendered(L);
    ToDateDescribed(L, t[i]);
    StampAccepted(L);
    StampTypes(L);
    AlterReaches(S, L, e, c, t, i, true);
  }

  lemma ToDateRendered(L: Lexis)
    requires L.Valid() && L.d == MySQL
    ensures Rendered(L, EngineMySQL, ToDate()).Statements?
    ensures ToDate().Retyped(L) && ToDate().FinalType(L) == "date"
  {
    hide Spelled, TypeOutcome;
    DateType(L);
    assert Lower("date")[0] != Lower("timestamp")[0];
    assert Trim(L.space, "") == "";
    assert NeedName(L, "at") == Pass by { NameAt(L); }
  }

  lemma NameAt(L: Lexis)
    requires L.Valid()
    ensures NeedName(L, "at") == Pass
  {
    assert 'a' !in L.space && 't' !in L.space by { assert 'a' in L.letter && 't' in L.letter; }
    TrimKeeps(L.space, "at");
  }

  lemma DateType(L: Lexis)
    requires L.Valid()
    ensures Trim(L.space, "date") == "date" && TypeOutcome(L, "date") == Pass
    ensures Trim(L.space, "timestamp") == "timestamp"
  {
    assert 'd' in L.letter && 'e' in L.letter && 't' in L.letter && 'p' in L.letter;
    TrimKeeps(L.space, "date");
    TrimKeeps(L.space, "timestamp");
    hide CharNest, Trim;
    PlainWord("date");
  }

  lemma ToDateDescribed(L: Lexis, k: ServerColumn)
    requires L.Valid() && L.d == MySQL
    requires k == ServerColumn("at", "timestamp", true, Some(Exp(STAMP)), false, None)
    ensures Describes(L, EngineMySQL, k, StampColumn(), true)
  {
    hide ExpressionOutcome, BareFamily, InFamily, GeneratedMark;
    StampAccepted(L);
    assert Meaning(L, EngineMySQL, STAMP) == Some(Exp(STAMP)) by {
      BareStands(L, STAMP);
      hide Wrapped, Constant;
      StandsForItself(L, EngineMySQL, STAMP);
    }
    assert GeneratedMark() + "" == GeneratedMark();
  }

  lemma StandsForItself(L: Lexis, e: Engine, s: string)
    requires !Wrapped(L, s) && !Constant(L, s)
    ensures Meaning(L, e, s) == Some(Exp(s))
  {
    hide Wrapped, IsNull, Quoted, NumberLiteral;
  }

  // ---------- SQLite ----------

  const SUM: string := "1 + 2"

  /** SQLite's DEFAULT wants parentheses around an expression, and the code puts
      none there. */
  lemma SumNotTaken(S: Server, L: Lexis, at: Place)
    requires L.Valid() && L.d == SQLite
    ensures var def := ColumnDefault(DefaultExpr, SUM);
            && DefaultOutcome(L, def) == Pass && DefaultValue(L, EngineSQLite, def) == Some(SUM)
            && !Takes(S, L, EngineSQLite, at, SUM)
  {
    hide CharNest, ExpressionOutcome, Simple, Trim, Wrapped, Constant, SQLiteLiteral, ClockWord;
    PlainWord(SUM);
    SumSimple();
    SimpleAccepted(L, SUM);
    SumBare(L);
  }

  lemma SumSimple()
    ensures Simple(SUM)
  {
  }

  lemma SumBare(L: Lexis)
    requires L.Valid()
    ensures !Wrapped(L, SUM) && !Constant(L, SUM) && !SQLiteLiteral(SUM) && !ClockWord(SUM)
  {
    hide ExpressionOutcome, Lead, NumberLiteral;
    assert SUM[0] == '1' && SUM[1] == ' ' && Lower(SUM)[0] == '1';
    if NumberLiteral(SUM) { NumberLiteralChars(SUM); }
  }
}
