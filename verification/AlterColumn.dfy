/** ALTER COLUMN on every engine (internal/db/ddl.go, internal/db/ddl_dialects.go):
    one requested change, spelled as one statement or several, naming the old
    column or restating it whole. Run on a table, every spelling has to end in
    the same column. */
module AlterColumns {
  import opened Wrappers
  import opened Text
  import opened Sqlhl
  import opened SqlhlLocality
  import opened Literal
  import opened Fragments
  import opened Ddl

  // ---------- the request ----------

  /** A column as introspection reports it. */
  datatype Column = Column(name: string, dataType: string, nullable: bool, default: Option<string>, extra: string)

  datatype AlterColumn = AlterColumn(was: Column, newName: string, typ: string, notNull: bool, default: ColumnDefault) {
    function FinalName(L: Lexis): string {
      if Trim(L.space, newName) == [] then was.name else newName
    }

    predicate Renamed(L: Lexis) { FinalName(L) != was.name }

    predicate Retyped(L: Lexis) {
      Trim(L.space, typ) != [] && Lower(Trim(L.space, typ)) != Lower(Trim(L.space, was.dataType))
    }

    predicate NullChanged() { notNull == was.nullable }

    predicate DefaultChanged() { default.kind != DefaultKeep }

    function FinalType(L: Lexis): string {
      if Retyped(L) then Trim(L.space, typ) else was.dataType
    }

    /** Needs more than RENAME COLUMN. */
    predicate Redefines(L: Lexis) { Retyped(L) || NullChanged() || DefaultChanged() }
  }

  // ---------- the statements ----------

  /** One action of an ALTER TABLE; the default is the SQL text after DEFAULT. */
  datatype Action =
    | SetType(col: string, typ: string)
    | SetNotNull(col: string)
    | DropNotNull(col: string)
    | SetDefault(col: string, sql: string)
    | DropDefault(col: string)

  datatype Alter =
    | AlterTable(actions: seq<Action>)
    | RenameColumn(from: string, to: string)
    | ChangeColumn(name: string, to: string, typ: string, notNull: bool,
                   default: Option<string>, autoIncrement: bool, onUpdate: Option<string>)

  /** What SchemaSQL answers. */
  datatype Rendering = NothingToChange | Unsupported | Refused(fault: Fault) | Statements(list: seq<Alter>)

  function DefaultAction(L: Lexis, e: Engine, col: string, def: ColumnDefault): Action {
    match DefaultValue(L, e, def)
    case Some(v) => SetDefault(col, v)
    case None => DropDefault(col)
  }

  function Retypes(L: Lexis, c: AlterColumn): seq<Action> {
    if c.Retyped(L) then [SetType(c.was.name, c.FinalType(L))] else []
  }

  function Renulls(c: AlterColumn): seq<Action> {
    if c.NullChanged() then [if c.notNull then SetNotNull(c.was.name) else DropNotNull(c.was.name)] else []
  }

  function Redefaults(L: Lexis, e: Engine, c: AlterColumn): seq<Action> {
    if c.DefaultChanged() then [DefaultAction(L, e, c.was.name, c.default)] else []
  }

  /** Type, nullability and default, in this order. */
  function Actions(L: Lexis, e: Engine, c: AlterColumn): seq<Action> {
    Retypes(L, c) + Renulls(c) + Redefaults(L, e, c)
  }

  function Rename(L: Lexis, c: AlterColumn): seq<Alter> {
    if c.Renamed(L) then [RenameColumn(c.was.name, c.FinalName(L))] else []
  }

  function Singles(actions: seq<Action>): (r: seq<Alter>)
    ensures |r| == |actions|
  {
    if actions == [] then [] else [AlterTable([actions[0]])] + Singles(actions[1..])
  }

  function PgAlter(L: Lexis, e: Engine, c: AlterColumn): seq<Alter> {
    (if Actions(L, e, c) == [] then [] else [AlterTable(Actions(L, e, c))]) + Rename(L, c)
  }

  function SeparateAlter(L: Lexis, e: Engine, c: AlterColumn): seq<Alter> {
    Singles(Actions(L, e, c)) + Rename(L, c)
  }

  method PgAlterColumn(L: Lexis, e: Engine, c: AlterColumn) returns (out: seq<Alter>)
    ensures out == PgAlter(L, e, c)
  {
    hide DefaultAction, AlterColumn.FinalName, AlterColumn.FinalType, AlterColumn.Retyped;
    var actions: seq<Action> := [];
    if c.Retyped(L) {
      actions := actions + [SetType(c.was.name, c.FinalType(L))];
    }
    if c.NullChanged() {
      if c.notNull {
        actions := actions + [SetNotNull(c.was.name)];
      } else {
        actions := actions + [DropNotNull(c.was.name)];
      }
    }
    if c.DefaultChanged() {
      actions := actions + [DefaultAction(L, e, c.was.name, c.default)];
    }
    assert actions == Actions(L, e, c);
    out := [];
    if |actions| > 0 {
      out := out + [AlterTable(actions)];
    }
    if c.Renamed(L) {
      out := out + [RenameColumn(c.was.name, c.FinalName(L))];
    }
  }

  method AlterColumnSeparate(L: Lexis, e: Engine, c: AlterColumn) returns (out: seq<Alter>)
    ensures out == SeparateAlter(L, e, c)
  {
    hide DefaultAction, AlterColumn.FinalName, AlterColumn.FinalType, AlterColumn.Retyped;
    out := [];
    ghost var done: seq<Action> := [];
    if c.Retyped(L) {
      out := out + [AlterTable([SetType(c.was.name, c.FinalType(L))])];
      done := [SetType(c.was.name, c.FinalType(L))];
    }
    assert out == Singles(done);
    if c.NullChanged() {
      var verb := if c.notNull then SetNotNull(c.was.name) else DropNotNull(c.was.name);
      SinglesSnoc(done, verb);
      out, done := out + [AlterTable([verb])], done + [verb];
    }
    if c.DefaultChanged() {
      var last := DefaultAction(L, e, c.was.name, c.default);
      SinglesSnoc(done, last);
      out, done := out + [AlterTable([last])], done + [last];
    }
    assert done == Actions(L, e, c);
    if c.Renamed(L) {
      out := out + [RenameColumn(c.was.name, c.FinalName(L))];
    }
  }

  lemma {:induction false} SinglesSnoc(actions: seq<Action>, a: Action)
    ensures Singles(actions + [a]) == Singles(actions) + [AlterTable([a])]
  {
    if actions == [] {
      assert actions + [a] == [a] && [a][1..] == [];
    } else {
      assert (actions + [a])[1..] == actions[1..] + [a];
      SinglesSnoc(actions[1..], a);
    }
  }

  // ---------- what MySQL's CHANGE COLUMN restates ----------

  /** strings.Index: the first place p occurs at, or -1. */
  function IndexOf(s: string, p: string): (i: int)
    ensures -1 <= i
    ensures i >= 0 ==> TagAt(s, p, i)
    ensures forall j: nat :: (i < 0 || j < i) ==> !TagAt(s, p, j)
  {
    if TagAt(s, p, 0) then 0
    else if s == [] then -1
    else
      var r := IndexOf(s[1..], p);
      assert forall j: nat :: j >= 1 ==> (TagAt(s, p, j) <==> TagAt(s[1..], p, j - 1)) by {
        forall j: nat | j >= 1
          ensures TagAt(s, p, j) <==> TagAt(s[1..], p, j - 1)
        {
          TagAtShift(s, p, j);
        }
      }
      if r < 0 then -1 else r + 1
  }

  // The words of EXTRA, in lower case.
  function Auto(): string { "auto_increment" }
  function OnUpdate(): string { "on update " }
  function Generated(): string { "default_generated" }

  predicate AutoIncrements(was: Column) { IndexOf(Lower(was.extra), Auto()) >= 0 }

  predicate IsGenerated(was: Column) { IndexOf(Lower(was.extra), Generated()) >= 0 }

  function UpdateClause(L: Lexis, was: Column): Option<string> {
    var i := IndexOf(Lower(was.extra), OnUpdate());
    if i < 0 then None else Some(Trim(L.space, was.extra[i + |OnUpdate()|..]))
  }

  /** The default a CHANGE COLUMN restates to keep it. */
  function KeptDefault(L: Lexis, e: Engine, was: Column): Option<string> {
    match was.default
    case None => None
    case Some(v) =>
      Some(if e == EngineMariaDB then v
           else if IsGenerated(was) then MysqlExprDefault(L, v)
           else QuoteString(e, v))
  }

  function MysqlAlter(L: Lexis, e: Engine, c: AlterColumn): seq<Alter> {
    if c.Retyped(L) || c.NullChanged() then
      [ChangeColumn(c.was.name, c.FinalName(L), c.FinalType(L), c.notNull,
                    if c.DefaultChanged() then DefaultValue(L, e, c.default) else KeptDefault(L, e, c.was),
                    AutoIncrements(c.was), UpdateClause(L, c.was))]
    else
      (if c.DefaultChanged() then [AlterTable([DefaultAction(L, e, c.was.name, c.default)])] else []) + Rename(L, c)
  }

  function Spelled(L: Lexis, e: Engine, c: AlterColumn): seq<Alter> {
    match e
    case EnginePostgres => PgAlter(L, e, c)
    case EngineMySQL => MysqlAlter(L, e, c)
    case EngineMariaDB => MysqlAlter(L, e, c)
    case EngineSQLite => [RenameColumn(c.was.name, c.FinalName(L))]
    case EngineDuckDB => SeparateAlter(L, e, c)
  }

  /** schemaStatements: nothing to do, not on this engine, not valid, or the
      engine's spelling. */
  function Rendered(L: Lexis, e: Engine, c: AlterColumn): Rendering {
    if !c.Renamed(L) && !c.Redefines(L) then NothingToChange
    else if e == EngineSQLite && c.Redefines(L) then Unsupported
    else if NeedName(L, c.FinalName(L)) != Pass then Refused(NeedName(L, c.FinalName(L)).fault)
    else if c.Retyped(L) && TypeOutcome(L, c.typ) != Pass then Refused(TypeOutcome(L, c.typ).fault)
    else if c.DefaultChanged() && DefaultOutcome(L, c.default) != Pass then Refused(DefaultOutcome(L, c.default).fault)
    else Statements(Spelled(L, e, c))
  }

  // ---------- the server ----------

  /** A default as the server keeps it: a constant by its text, or an
      expression. No default and DEFAULT NULL are one. */
  datatype Stored = Value(text: string) | Exp(text: string)

  datatype ServerColumn = ServerColumn(name: string, typ: string, notNull: bool, default: Option<Stored>,
                                       autoIncrement: bool, onUpdate: Option<string>)

  type Table = seq<ServerColumn>

  ghost predicate Distinct(t: Table) { forall i, j :: 0 <= i < j < |t| ==> t[i].name != t[j].name }

  function Find(t: Table, name: string): (i: nat)
    ensures i <= |t| && (i < |t| ==> t[i].name == name)
    ensures forall j :: 0 <= j < i ==> t[j].name != name
  {
    if t == [] || t[0].name == name then 0 else 1 + Find(t[1..], name)
  }

  /** One pair of parentheses around an expression. */
  predicate Wrapped(L: Lexis, s: string) {
    |s| >= 2 && s[0] == '(' && s[|s| - 1] == ')' && ExpressionOutcome(L, Inside(s)) == Pass
  }

  /** One string literal. */
  predicate Quoted(L: Lexis, s: string) {
    |s| >= 2 && s[0] == '\'' && s[|s| - 1] == '\'' && Lead(L, s) == Lexeme(String, |s|)
  }

  predicate IsNull(s: string) { Lower(s) == "null" }

  /** What the text after DEFAULT stands for. Parentheses around it change
      nothing. */
  function Meaning(L: Lexis, e: Engine, s: string): Option<Stored>
    decreases |s|
  {
    if Wrapped(L, s) then
      TrimShortens(L, Inside(s));
      Meaning(L, e, Trim(L.space, Inside(s)))
    else if IsNull(s) then None
    else if Quoted(L, s) then Some(Value(Unescape(Inside(s), '\'', e.MySQLish())))
    else if NumberLiteral(s) then Some(Value(s))
    else Some(Exp(s))
  }

  lemma TrimShortens(L: Lexis, s: string)
    ensures |Trim(L.space, s)| <= |s|
  {
  }

  lemma TrimTwice(cs: set<char>, s: string)
    ensures Trim(cs, Trim(cs, s)) == Trim(cs, s)
  {
    hide Run, TrimRight;
    var t := Trim(cs, s);
    hide Trim;
    TrimKeeps(cs, t);
  }

  lemma TrimKeeps(cs: set<char>, t: string)
    requires t != [] ==> t[0] !in cs && t[|t| - 1] !in cs
    ensures Trim(cs, t) == t
  {
    assert t[0..] == t;
  }

  // What MySQL's manual (data type defaults, CREATE TABLE) says.

  /** Nothing, or a pair of parentheses with a precision in it or nothing. */
  predicate Precision(s: string) {
    s == "" ||
    (|s| >= 2 && s[0] == '(' && s[|s| - 1] == ')' &&
     var n := Trim(Blanks, Inside(s)); forall i :: 0 <= i < |n| ==> '0' <= n[i] <= '9')
  }

  const Blanks: set<char> := set c: char | IsAsciiSpace(c)

  predicate FamilyWord(s: string, word: string) { HasPrefixFold(s, word) && Precision(Trim(Blanks, s[|word|..])) }

  /** The CURRENT_TIMESTAMP family: one of its words in any case, and nothing
      else but a precision. NOW is a function and has its parenthesis at once. */
  predicate InFamily(s: string) {
    || FamilyWord(s, "CURRENT_TIMESTAMP")
    || (FamilyWord(s, "NOW") && |s| > 3 && s[3] == '(')
    || FamilyWord(s, "LOCALTIME") || FamilyWord(s, "LOCALTIMESTAMP")
  }

  /** The precision a type or a function of the family is written with: the
      number after its first parenthesis, zero if there is none. */
  function PrecisionOf(s: string): int {
    var i := IndexOrEnd(s, '(');
    if i == |s| then 0
    else
      var r := s[i + 1..];
      var u := r[Run(Blanks, r)..];
      DigitsValue(u[..Run(AsciiDigits, u)])
  }

  predicate TypeWord(L: Lexis, typ: string, word: string) {
    HasPrefixFold(typ, word) && (|typ| > |word| ==> typ[|word|] !in L.IdentPart())
  }

  /** A DATETIME or TIMESTAMP. */
  predicate Temporal(L: Lexis, typ: string) { TypeWord(L, typ, "DATETIME") || TypeWord(L, typ, "TIMESTAMP") }

  /** A function of the family goes with a type of that kind and of its own
      precision. */
  predicate Suits(L: Lexis, typ: string, s: string) { Temporal(L, typ) && PrecisionOf(s) == PrecisionOf(typ) }

  // What SQLite's documentation (CREATE TABLE, ALTER TABLE) says.

  predicate ClockWord(s: string) {
    var w := Lower(s);
    w == "current_time" || w == "current_date" || w == "current_timestamp"
  }

  predicate BlobLiteral(s: string) {
    && |s| >= 3 && |s| % 2 == 1 && (s[0] == 'x' || s[0] == 'X') && s[1] == '\'' && s[|s| - 1] == '\''
    && forall i :: 2 <= i < |s| - 1 ==> s[i] in HexDigits
  }

  predicate HexLiteral(s: string) {
    var u := SkipSign(s);
    |u| > 2 && u[0] == '0' && (u[1] == 'x' || u[1] == 'X') && forall i :: 2 <= i < |u| ==> u[i] in HexDigits
  }

  predicate SQLiteLiteral(s: string) {
    Lower(s) == "true" || Lower(s) == "false" || BlobLiteral(s) || HexLiteral(s)
  }

  /** Where a default stands: in the definition of a column of that type, in a
      CREATE TABLE or a CHANGE COLUMN or added to a table, or after ALTER COLUMN
      .. SET DEFAULT. */
  datatype Place = InDefinition(typ: string, added: bool) | InSetDefault

  /** What is an engine's own: the bare expressions that PostgreSQL, DuckDB and
      MariaDB take for a default, and which steps from one definition of a
      column to the next it allows, as its data, its types and its indexes are. */
  datatype Server = Server(bare: (Place, string) -> bool, allows: (ServerColumn, ServerColumn) -> bool)

  predicate Constant(L: Lexis, s: string) { IsNull(s) || Quoted(L, s) || NumberLiteral(s) }

  /** The defaults that are neither a constant nor in parentheses. MySQL takes
      the family, in a definition of a column that suits it; SQLite a few
      keywords and literals. */
  predicate TakesBare(S: Server, L: Lexis, e: Engine, at: Place, s: string) {
    match e
    case EngineMySQL => at.InDefinition? && InFamily(s) && Suits(L, at.typ, s)
    case EngineSQLite => SQLiteLiteral(s) || (ClockWord(s) && !Adds(at))
    case _ => S.bare(at, s)
  }

  predicate Adds(at: Place) { at.InDefinition? && at.added }

  /** Every engine takes a constant, and an expression in parentheses; but SQLite
      adds no column with a computed default. */
  predicate Takes(S: Server, L: Lexis, e: Engine, at: Place, s: string) {
    Constant(L, s) || (Wrapped(L, s) && !(e == EngineSQLite && Adds(at))) || TakesBare(S, L, e, at, s)
  }

  /** ON UPDATE wants a column that the family suits; what MariaDB makes of the
      precision is its own. */
  predicate TakesUpdate(L: Lexis, e: Engine, typ: string, u: string) {
    Temporal(L, typ) && (e == EngineMySQL ==> PrecisionOf(u) == PrecisionOf(typ))
  }

  /** The next definition of a column, if the server allows it. */
  function Step(S: Server, k: ServerColumn, next: ServerColumn): Option<ServerColumn> {
    if S.allows(k, next) then Some(next) else None
  }

  function Act(S: Server, L: Lexis, e: Engine, a: Action, k: ServerColumn): Option<ServerColumn> {
    match a
    case SetType(_, typ) => Step(S, k, k.(typ := typ))
    case SetNotNull(_) => Step(S, k, k.(notNull := true))
    case DropNotNull(_) => Step(S, k, k.(notNull := false))
    case SetDefault(_, sql) =>
      if Takes(S, L, e, InSetDefault, sql) then Step(S, k, k.(default := Meaning(L, e, sql))) else None
    case DropDefault(_) => Step(S, k, k.(default := None))
  }

  /** The actions of one ALTER TABLE; an unknown column fails it. */
  function ActAll(S: Server, L: Lexis, e: Engine, actions: seq<Action>, t: Table): Option<Table> {
    if actions == [] then Some(t)
    else
      var i := Find(t, actions[0].col);
      if i == |t| then None
      else
        match Act(S, L, e, actions[0], t[i])
        case None => None
        case Some(k) => ActAll(S, L, e, actions[1..], t[i := k])
  }

  /** A column of the table in its next definition. */
  function Put(S: Server, t: Table, i: nat, next: ServerColumn): Option<Table>
    requires i < |t|
  {
    if S.allows(t[i], next) then Some(t[i := next]) else None
  }

  /** One statement: it fails on a column that is not there, on a new name that
      is taken, on a default or an ON UPDATE that is none there, and on what the
      server does not allow. */
  function Exec(S: Server, L: Lexis, e: Engine, a: Alter, t: Table): Option<Table> {
    match a
    case AlterTable(actions) => ActAll(S, L, e, actions, t)
    case RenameColumn(from, to) =>
      var i := Find(t, from);
      if i == |t| || Find(t, to) < |t| then None else Put(S, t, i, t[i].(name := to))
    case ChangeColumn(name, to, typ, notNull, default, auto, upd) =>
      var i := Find(t, name);
      if i == |t| || (to != name && Find(t, to) < |t|) then None
      else if default.Some? && !Takes(S, L, e, InDefinition(typ, false), default.value) then None
      else if upd.Some? && !TakesUpdate(L, e, typ, upd.value) then None
      else
        var def := if default.Some? then Meaning(L, e, default.value) else None;
        Put(S, t, i, ServerColumn(to, typ, notNull, def, auto, upd))
  }

  function ExecAll(S: Server, L: Lexis, e: Engine, list: seq<Alter>, t: Table): Option<Table> {
    if list == [] then Some(t)
    else match Exec(S, L, e, list[0], t) case None => None case Some(u) => ExecAll(S, L, e, list[1..], u)
  }

  // ---------- introspection ----------

  /** The clause after ON UPDATE: the CURRENT_TIMESTAMP family, in any case. */
  predicate UpdateText(L: Lexis, u: string) {
    Trim(L.space, u) == u && forall i :: 0 <= i < |u| ==> LowerChar(u[i]) != 'o' && LowerChar(u[i]) != 'f'
  }

  function GeneratedMark(): string { "DEFAULT_GENERATED" }

  /** EXTRA, as information_schema spells it. */
  function ExtraText(generated: bool, auto: bool, upd: Option<string>): string {
    if auto then Auto()
    else
      (if generated then GeneratedMark() else "") +
      (match upd case None => "" case Some(u) => (if generated then " " else "") + (OnUpdate() + u))
  }

  /** The default of a MySQL or MariaDB column, as information_schema reports
      it: MariaDB reports SQL, MySQL a constant's text or, with
      DEFAULT_GENERATED, an expression. */
  predicate ReportsDefault(L: Lexis, e: Engine, k: ServerColumn, default: Option<string>, generated: bool) {
    if e == EngineMariaDB then
      !generated && k.default == (match default case None => None case Some(v) => Meaning(L, e, v))
    else
      match k.default
      case None => default == None && !generated
      case Some(Value(s)) => default == Some(s) && !generated
      case Some(Exp(x)) =>
        && generated && default.Some? && ExpressionOutcome(L, default.value) == Pass
        && Meaning(L, e, Trim(L.space, default.value)) == k.default
  }

  predicate Describes(L: Lexis, e: Engine, k: ServerColumn, was: Column, generated: bool) {
    && was.name == k.name && was.dataType == k.typ && was.nullable == !k.notNull
    && (e.MySQLish() ==>
          && ReportsDefault(L, e, k, was.default, generated)
          && was.extra == ExtraText(generated, k.autoIncrement, k.onUpdate)
          && (k.autoIncrement ==> !generated && k.onUpdate == None)
          && (k.onUpdate.Some? ==> UpdateText(L, k.onUpdate.value)))
  }

  // ---------- reading EXTRA back ----------

  /** A mark that a text does not have cannot be in any part of it. */
  lemma MarkMissing(s: string, p: string, k: nat)
    requires k < |p| && forall i :: 0 <= i < |s| ==> s[i] != p[k]
    ensures IndexOf(s, p) < 0
  {
    forall j: nat
      ensures !TagAt(s, p, j)
    {
      if j + |p| <= |s| {
        assert s[j..j + |p|][k] == s[j + k];
      }
    }
  }

  lemma LowerAppend(a: string, b: string)
    ensures Lower(a + b) == Lower(a) + Lower(b)
  {
  }

  predicate Without(s: string, c: char) { forall i :: 0 <= i < |s| ==> s[i] != c }

  lemma CatAt(g: string, p: string, v: string, i: nat)
    requires i < |g + p + v|
    ensures (g + p + v)[i] == if i < |g| then g[i] else if i < |g| + |p| then p[i - |g|] else v[i - |g| - |p|]
  {
  }

  /** The only o of g + p + v is the one of p. */
  lemma OnlyO(g: string, p: string, at: nat, v: string, i: nat)
    requires at < |p| && Without(g, 'o') && Without(v, 'o') && forall i :: 0 <= i < |p| && p[i] == 'o' ==> i == at
    requires i < |g + p + v| && (g + p + v)[i] == 'o'
    ensures i == |g| + at
  {
    CatAt(g, p, v, i);
  }

  lemma Occurs(g: string, p: string, at: nat, v: string, q: string, k: nat, j: nat)
    requires at + 1 < |p| && k + 1 < |q| && p[at] == q[k] == 'o'
    requires Without(g, 'o') && Without(v, 'o') && forall i :: 0 <= i < |p| && p[i] == 'o' ==> i == at
    requires TagAt(g + p + v, q, j)
    ensures j + k == |g| + at && q[k + 1] == p[at + 1]
  {
    hide Without;
    var s := g + p + v;
    var w := s[j..j + |q|];
    assert w[k] == s[j + k] && w[k + 1] == s[j + k + 1];
    OnlyO(g, p, at, v, j + k);
    assert s[|g| + at + 1] == (p + v)[at + 1] == p[at + 1];
  }

  /** AUTO_INCREMENT and ON UPDATE, between texts without an o, are found only
      where the o is. */
  lemma OnlyThere(g: string, p: string, at: nat, v: string, q: string, k: nat)
    requires at + 1 < |p| && k + 1 < |q| && p[at] == q[k] == 'o'
    requires Without(g, 'o') && Without(v, 'o') && forall i :: 0 <= i < |p| && p[i] == 'o' ==> i == at
    requires q == p || q[k + 1] != p[at + 1]
    ensures if q == p then IndexOf(g + p + v, q) == |g| else IndexOf(g + p + v, q) < 0
  {
    hide IndexOf, Without;
    var s := g + p + v;
    if q == p {
      assert s[|g|..|g| + |p|] == p;
      assert TagAt(s, q, |g|);
      hide TagAt;
      Occurs(g, p, at, v, q, k, |g|);
      Occurs(g, p, at, v, q, k, IndexOf(s, q));
    } else {
      hide TagAt;
      forall j: nat
        ensures !TagAt(s, q, j)
      {
        if TagAt(s, q, j) { Occurs(g, p, at, v, q, k, j); }
      }
    }
  }

  /** What CHANGE COLUMN restates is what the column had. */
  lemma ExtraReadsBack(L: Lexis, e: Engine, k: ServerColumn, was: Column, generated: bool)
    requires e.MySQLish() && Describes(L, e, k, was, generated)
    ensures AutoIncrements(was) == k.autoIncrement
    ensures IsGenerated(was) == generated
    ensures UpdateClause(L, was) == k.onUpdate
  {
    hide IndexOf, Trim, Lower, Auto, OnUpdate, Generated, ExtraText, ReportsDefault;
    if k.autoIncrement {
      ExtraAuto();
    } else if k.onUpdate.Some? {
      ExtraUpdate(L, generated, k.onUpdate.value);
    } else {
      ExtraBare(generated);
    }
  }

  /** The words of EXTRA, and where their letters are. */
  lemma Words()
    ensures Lower(Auto()) == Auto() && Lower(GeneratedMark()) == Generated() && Lower(OnUpdate()) == OnUpdate()
    ensures Without(Generated(), 'o') && Without(Generated(), ' ')
    ensures forall i :: 0 <= i < |Auto()| && Auto()[i] == 'o' ==> i == 3
    ensures forall i :: 0 <= i < |OnUpdate()| && OnUpdate()[i] == 'o' ==> i == 0
    ensures Without(Auto(), 'f') && Without(OnUpdate(), 'f')
    ensures |Auto()| == 14 && |Generated()| == 17 && |OnUpdate()| == 10
    ensures Auto()[3] == 'o' && Auto()[4] == '_' && OnUpdate()[0] == 'o' && OnUpdate()[1] == 'n' && Generated()[2] == 'f'
  {
    LowerWords();
    hide Lower;
  }

  lemma LowerWords()
    ensures Lower(Auto()) == Auto() && Lower(GeneratedMark()) == Generated() && Lower(OnUpdate()) == OnUpdate()
  {
  }

  lemma ExtraAuto()
    ensures var x := Lower(ExtraText(false, true, None));
            IndexOf(x, Auto()) >= 0 && IndexOf(x, Generated()) < 0 && IndexOf(x, OnUpdate()) < 0
  {
    hide IndexOf, Lower, Auto, OnUpdate, Generated, GeneratedMark;
    Words();
    OnlyThere("", Auto(), 3, "", Auto(), 3);
    OnlyThere("", Auto(), 3, "", OnUpdate(), 0);
    assert "" + Auto() + "" == Auto();
    MarkMissing(Auto(), Generated(), 2);
  }

  /** The parts of EXTRA, in lower case. */
  lemma ExtraLower(generated: bool, u: string)
    ensures var x := ExtraText(generated, false, Some(u));
            var g := if generated then Generated() + " " else "";
            |g| + |OnUpdate()| <= |x| && Lower(x) == g + OnUpdate() + Lower(u) && x[|g| + |OnUpdate()|..] == u
  {
    hide Lower, Auto, OnUpdate, Generated, GeneratedMark;
    Words();
    var head := if generated then GeneratedMark() + " " else "";
    LowerAppend(GeneratedMark(), " ");
    assert Lower(" ") == " ";
    LowerAppend(head, OnUpdate() + u);
    LowerAppend(OnUpdate(), u);
    assert ExtraText(generated, false, Some(u)) == head + (OnUpdate() + u);
  }

  /** ON UPDATE is found where it was put. */
  lemma ExtraUpdate(L: Lexis, generated: bool, u: string)
    requires UpdateText(L, u)
    ensures var x := ExtraText(generated, false, Some(u));
            var i := IndexOf(Lower(x), OnUpdate());
            i >= 0 && x[i + |OnUpdate()|..] == u && IndexOf(Lower(x), Auto()) < 0
            && (IndexOf(Lower(x), Generated()) >= 0 <==> generated)
  {
    hide IndexOf, ExtraText, Auto, OnUpdate, Generated, GeneratedMark;
    Words();
    ExtraLower(generated, u);
    var low := Lower(ExtraText(generated, false, Some(u)));
    var g, v := if generated then Generated() + " " else "", Lower(u);
    hide Lower;
    assert Without(g, 'o') && Without(v, 'o');
    OnlyThere(g, OnUpdate(), 0, v, OnUpdate(), 0);
    OnlyThere(g, OnUpdate(), 0, v, Auto(), 3);
    if generated {
      assert low[0..|Generated()|] == Generated();
      assert TagAt(low, Generated(), 0);
    } else {
      assert Without(v, 'f');
      assert low == OnUpdate() + v;
      MarkMissing(low, Generated(), 2);
    }
  }

  lemma ExtraBare(generated: bool)
    ensures var x := Lower(ExtraText(generated, false, None));
            (IndexOf(x, Generated()) >= 0 <==> generated) && IndexOf(x, Auto()) < 0 && IndexOf(x, OnUpdate()) < 0
  {
    hide IndexOf, Lower, Auto, OnUpdate, Generated, GeneratedMark;
    var x := Lower(ExtraText(generated, false, None));
    Words();
    if generated {
      assert GeneratedMark() + "" == GeneratedMark();
      assert x == Generated();
      assert x[0..|Generated()|] == Generated();
      assert TagAt(x, Generated(), 0);
    } else {
      assert x == "";
      MarkMissing(x, Generated(), 2);
    }
    assert Without(x, 'o');
    MarkMissing(x, Auto(), 3);
    MarkMissing(x, OnUpdate(), 0);
  }

  // ---------- defaults ----------

  /** The default a request asks for. */
  function Wanted(L: Lexis, e: Engine, def: ColumnDefault): Option<Stored> {
    match def.kind
    case DefaultText => Some(Value(def.value))
    case DefaultNumber => Some(Value(Trim(L.space, def.value)))
    case DefaultExpr => Meaning(L, e, Trim(L.space, def.value))
    case _ => None
  }

  /** What the code writes an expression as when it leaves it as it is: on MySQL
      and MariaDB what starts like the family and what starts and ends with a
      parenthesis, elsewhere everything. */
  predicate LeftAsIs(e: Engine, x: string) {
    !e.MySQLish() || BareFamily(x) || (x != [] && x[0] == '(' && x[|x| - 1] == ')')
  }

  /** When MySQL takes an expression as it is spelled: one that starts like the
      family is of the family, in a definition that it suits; one that starts
      and ends with a parenthesis is in one pair. */
  predicate ExprSpellable(L: Lexis, at: Place, x: string) {
    if BareFamily(x) then at.InDefinition? && InFamily(x) && Suits(L, at.typ, x)
    else !(x != [] && x[0] == '(' && x[|x| - 1] == ')') || Wrapped(L, x)
  }

  /** When an engine takes the default as it is spelled. */
  predicate Spellable(S: Server, L: Lexis, e: Engine, at: Place, def: ColumnDefault) {
    def.kind == DefaultExpr ==>
      var x := Trim(L.space, def.value);
      if e == EngineMySQL then ExprSpellable(L, at, x) else LeftAsIs(e, x) ==> Takes(S, L, e, at, x)
  }

  /** A text that starts like the family is no constant and in no parentheses. */
  lemma BareStands(L: Lexis, x: string)
    requires BareFamily(x)
    ensures !Wrapped(L, x) && !Constant(L, x)
  {
    hide ExpressionOutcome, Lead, NumberLiteral;
    assert Upper(x[0]) == 'C' || (Upper(x[0]) == 'N' && Upper(x[1]) == 'O') || Upper(x[0]) == 'L';
    assert Lower(x)[0] != 'n' || Lower(x)[1] != 'u';
    if NumberLiteral(x) { NumberLiteralChars(x); }
  }

  lemma QuotedMeans(S: Server, L: Lexis, e: Engine, at: Place, s: string)
    requires L.Valid() && L.d == e.For()
    ensures Meaning(L, e, QuoteString(e, s)) == Some(Value(s)) && Takes(S, L, e, at, QuoteString(e, s))
  {
    hide ExpressionOutcome, Unescape, Lead, InFamily, NumberLiteral, Trim;
    var lit := QuoteString(e, s);
    QuoteStringReadsBack(L, e, s, "");
    assert lit + "" == lit;
    assert lit[0] == '\'' && lit[|lit| - 1] == '\'';
    assert Lower(lit)[0] == '\'';
    assert Quoted(L, lit);
  }

  lemma NumberMeans(S: Server, L: Lexis, e: Engine, at: Place, s: string)
    requires NumberLiteral(s)
    ensures Meaning(L, e, s) == Some(Value(s)) && Takes(S, L, e, at, s)
  {
    hide ExpressionOutcome, Unescape, Lead, InFamily, NumberLiteral, Trim;
    NumberLiteralChars(s);
    assert s[0] != '(' && s[0] != '\'';
    assert Lower(s)[0] != 'n';
  }

  lemma NullMeans(S: Server, L: Lexis, e: Engine, at: Place)
    ensures Meaning(L, e, "NULL") == None && Takes(S, L, e, at, "NULL")
  {
    hide ExpressionOutcome, Unescape, Lead, InFamily, NumberLiteral, Trim;
    assert Lower("NULL") == "null";
  }

  lemma ParensMean(L: Lexis, e: Engine, x: string)
    requires ExpressionOutcome(L, x) == Pass && Trim(L.space, x) == x
    ensures Wrapped(L, Parens(x)) && Meaning(L, e, Parens(x)) == Meaning(L, e, x)
  {
    hide ExpressionOutcome, Trim, Quoted, NumberLiteral, IsNull;
    assert Inside(Parens(x)) == x;
  }

  /** However an accepted expression is spelled for MySQL and MariaDB, it stands
      for itself. MySQL takes the spelling exactly when what is left bare is of
      the family, in a definition that it suits, or in one pair of parentheses;
      MariaDB when it takes what is left as it is. */
  lemma ExprMeans(S: Server, L: Lexis, e: Engine, at: Place, value: string)
    requires L.Valid() && L.d == e.For() && ExpressionOutcome(L, value) == Pass && e.MySQLish()
    ensures var x, r := Trim(L.space, value), MysqlExprDefault(L, value);
            && Meaning(L, e, r) == Meaning(L, e, x)
            && (e == EngineMySQL ==> (Takes(S, L, e, at, r) <==> ExprSpellable(L, at, x)))
            && (e == EngineMariaDB ==> (Takes(S, L, e, at, r) <==> (LeftAsIs(e, x) ==> Takes(S, L, e, at, x))))
  {
    hide MysqlExprDefault, Meaning, Trim, Constant, BareFamily, InFamily, Suits, Wrapped;
    var x := Trim(L.space, value);
    SpelledAs(L, e, value);
    if BareFamily(x) {
      BareStands(L, x);
    } else if LeftAsIs(e, x) {
      ParenthesizedTaken(S, L, e, at, x);
    } else {
      ParensMean(L, e, x);
    }
  }

  /** mysqlExprDefault puts parentheses around what it does not leave as it is. */
  lemma SpelledAs(L: Lexis, e: Engine, value: string)
    requires e.MySQLish() && ExpressionOutcome(L, value) == Pass
    ensures var x := Trim(L.space, value);
            && x != [] && ExpressionOutcome(L, x) == Pass && Trim(L.space, x) == x
            && MysqlExprDefault(L, value) == if LeftAsIs(e, x) then x else Parens(x)
  {
    hide Trim, BareFamily;
    TrimTwice(L.space, value);
  }

  lemma ParenthesizedTaken(S: Server, L: Lexis, e: Engine, at: Place, x: string)
    requires |x| > 0 && x[0] == '('
    ensures e == EngineMySQL ==> (Takes(S, L, e, at, x) <==> Wrapped(L, x))
  {
    hide Wrapped, Suits, Precision;
    assert Upper(x[0]) == '(';
    if NumberLiteral(x) { NumberLiteralChars(x); }
    assert Lower(x)[0] == '(';
  }

  /** The text of a DEFAULT clause stands for what was asked, and its engine
      takes it under that condition only. */
  lemma DefaultMeans(S: Server, L: Lexis, e: Engine, at: Place, def: ColumnDefault)
    requires L.Valid() && L.d == e.For() && DefaultOutcome(L, def) == Pass
    ensures var v := DefaultValue(L, e, def);
            && Wanted(L, e, def) == (if v.Some? then Meaning(L, e, v.value) else None)
            && (Spellable(S, L, e, at, def) <==> (v.Some? ==> Takes(S, L, e, at, v.value)))
  {
    hide Meaning, ExprSpellable, Takes, MysqlExprDefault, ExpressionOutcome, NumberLiteral, QuoteString, Trim, BareFamily;
    match def.kind {
      case DefaultText => QuotedMeans(S, L, e, at, def.value);
      case DefaultNumber => NumberMeans(S, L, e, at, Trim(L.space, def.value));
      case DefaultExpr => if e.MySQLish() { ExprMeans(S, L, e, at, def.value); }
      case DefaultNull => NullMeans(S, L, e, at);
      case _ =>
    }
  }

  /** When the engine takes what CHANGE COLUMN restates to keep a default, in a
      definition of that type. */
  predicate KeptSpellable(S: Server, L: Lexis, e: Engine, typ: string, was: Column, generated: bool) {
    was.default.Some? ==>
      var at, v := InDefinition(typ, false), was.default.value;
      if e == EngineMySQL then generated ==> ExprSpellable(L, at, Trim(L.space, v)) else Takes(S, L, e, at, v)
  }

  /** The default restated from introspection stands for the one the column has. */
  lemma KeptDefaultMeans(S: Server, L: Lexis, e: Engine, k: ServerColumn, typ: string, was: Column, generated: bool)
    requires L.Valid() && L.d == e.For() && e.MySQLish() && Describes(L, e, k, was, generated)
    ensures var v := KeptDefault(L, e, was);
            && k.default == (if v.Some? then Meaning(L, e, v.value) else None)
            && (KeptSpellable(S, L, e, typ, was, generated) <==>
                (v.Some? ==> Takes(S, L, e, InDefinition(typ, false), v.value)))
  {
    hide Meaning, ExprSpellable, MysqlExprDefault, ExpressionOutcome, QuoteString, Trim, IsGenerated, ExtraText, Takes;
    ExtraReadsBack(L, e, k, was, generated);
    if was.default.Some? && e == EngineMySQL {
      var v, at := was.default.value, InDefinition(typ, false);
      if generated { ExprMeans(S, L, e, at, v); } else { QuotedMeans(S, L, e, at, v); }
    }
  }

  // ---------- running the statements ----------

  lemma FindAt(t: Table, i: nat, name: string)
    requires Distinct(t) && i < |t| && t[i].name == name
    ensures Find(t, name) == i
  {
    var j := Find(t, name);
    assert j <= i;
    assert t[j].name == name;
  }

  lemma {:induction false} FindSame(t: Table, u: Table, name: string)
    requires |t| == |u| && forall j :: 0 <= j < |t| ==> t[j].name == u[j].name
    ensures Find(t, name) == Find(u, name)
  {
    if t != [] {
      FindSame(t[1..], u[1..], name);
    }
  }

  /** The actions on the one column they name. */
  function ActColumn(S: Server, L: Lexis, e: Engine, actions: seq<Action>, k: ServerColumn): Option<ServerColumn> {
    if actions == [] then Some(k)
    else match Act(S, L, e, actions[0], k) case None => None case Some(m) => ActColumn(S, L, e, actions[1..], m)
  }

  lemma {:induction false} ActionsRun(S: Server, L: Lexis, e: Engine, actions: seq<Action>, t: Table, i: nat)
    requires Distinct(t) && i < |t| && forall a :: a in actions ==> a.col == t[i].name
    ensures ActAll(S, L, e, actions, t) ==
            match ActColumn(S, L, e, actions, t[i]) { case None => None case Some(k) => Some(t[i := k]) }
  {
    hide Meaning, Takes;
    if actions == [] {
      assert t[i := t[i]] == t;
    } else {
      assert actions[0] in actions;
      FindAt(t, i, t[i].name);
      var m := Act(S, L, e, actions[0], t[i]);
      if m.Some? {
        var u := t[i := m.value];
        ActionsRun(S, L, e, actions[1..], u, i);
        var r := ActColumn(S, L, e, actions[1..], u[i]);
        if r.Some? { assert u[i := r.value] == t[i := r.value]; }
      }
    }
  }

  lemma ActAllStep(S: Server, L: Lexis, e: Engine, a: Action, rest: seq<Action>, t: Table)
    ensures ActAll(S, L, e, [a] + rest, t) ==
            match ActAll(S, L, e, [a], t) { case None => None case Some(u) => ActAll(S, L, e, rest, u) }
  {
    hide Act, Find;
    assert [a][1..] == [] && ([a] + rest)[1..] == rest;
    var i := Find(t, a.col);
    if i < |t| {
      var m := Act(S, L, e, a, t[i]);
      if m.Some? { assert ActAll(S, L, e, [], t[i := m.value]) == Some(t[i := m.value]); }
    }
  }

  /** One action a statement or all in one: the same run. */
  lemma {:induction false} SinglesRun(S: Server, L: Lexis, e: Engine, actions: seq<Action>, rest: seq<Alter>, t: Table)
    ensures ExecAll(S, L, e, Singles(actions) + rest, t) ==
            match ActAll(S, L, e, actions, t) { case None => None case Some(u) => ExecAll(S, L, e, rest, u) }
  {
    if actions == [] {
      assert Singles(actions) + rest == rest;
    } else {
      hide ActAll, Find, Meaning, Takes;
      var list := Singles(actions) + rest;
      assert list[0] == AlterTable([actions[0]]) && list[1..] == Singles(actions[1..]) + rest;
      assert actions == [actions[0]] + actions[1..];
      ActAllStep(S, L, e, actions[0], actions[1..], t);
      var u := ActAll(S, L, e, [actions[0]], t);
      if u.Some? { SinglesRun(S, L, e, actions[1..], rest, u.value); }
    }
  }

  /** The column every engine has to end in. */
  function Target(L: Lexis, e: Engine, c: AlterColumn, k: ServerColumn): ServerColumn {
    k.(name := c.FinalName(L), typ := c.FinalType(L), notNull := c.notNull,
       default := if c.DefaultChanged() then Wanted(L, e, c.default) else k.default)
  }

  /** The new name is not another column's. */
  predicate NameFree(L: Lexis, c: AlterColumn, t: Table) {
    c.Renamed(L) ==> Find(t, c.FinalName(L)) == |t|
  }

  /** MySQL and MariaDB restate the whole column. */
  predicate Rewrites(L: Lexis, e: Engine, c: AlterColumn) { e.MySQLish() && (c.Retyped(L) || c.NullChanged()) }

  /** The default that the statements spell is one the engine takes where it
      stands. */
  predicate DefaultSpellable(S: Server, L: Lexis, e: Engine, c: AlterColumn, generated: bool) {
    if !Rewrites(L, e, c) then c.DefaultChanged() ==> Spellable(S, L, e, InSetDefault, c.default)
    else if c.DefaultChanged() then Spellable(S, L, e, InDefinition(c.FinalType(L), false), c.default)
    else KeptSpellable(S, L, e, c.FinalType(L), c.was, generated)
  }

  /** A restated ON UPDATE is one for the final type. */
  predicate UpdateSuits(L: Lexis, e: Engine, c: AlterColumn, k: ServerColumn) {
    Rewrites(L, e, c) && k.onUpdate.Some? ==> TakesUpdate(L, e, c.FinalType(L), k.onUpdate.value)
  }

  /** The definitions a column goes through, aspect by aspect. */
  function WithType(L: Lexis, c: AlterColumn, k: ServerColumn): ServerColumn { k.(typ := c.FinalType(L)) }
  function WithNull(c: AlterColumn, k: ServerColumn): ServerColumn { k.(notNull := c.notNull) }
  function WithDefault(L: Lexis, e: Engine, c: AlterColumn, k: ServerColumn): ServerColumn {
    if c.DefaultChanged() then k.(default := Wanted(L, e, c.default)) else k
  }

  /** The server allows every definition on the way: all at once where the
      column is restated, else type, nullability, default and name in turn. */
  predicate Allowed(S: Server, L: Lexis, e: Engine, c: AlterColumn, k: ServerColumn) {
    if Rewrites(L, e, c) then S.allows(k, Target(L, e, c, k))
    else
      && AspectsAllowed(S, L, e, c, k)
      && (c.Renamed(L) ==> S.allows(Target(L, e, c, k).(name := k.name), Target(L, e, c, k)))
  }

  predicate AspectsAllowed(S: Server, L: Lexis, e: Engine, c: AlterColumn, k: ServerColumn) {
    var k1 := WithType(L, c, k);
    var k2 := WithNull(c, k1);
    && (c.Retyped(L) ==> S.allows(k, k1))
    && (c.NullChanged() ==> S.allows(k1, k2))
    && (c.DefaultChanged() ==> S.allows(k2, WithDefault(L, e, c, k2)))
  }

  lemma RetypesAct(S: Server, L: Lexis, e: Engine, c: AlterColumn, k: ServerColumn)
    requires c.was.dataType == k.typ
    ensures var k1 := WithType(L, c, k);
            ActColumn(S, L, e, Retypes(L, c), k) == if c.Retyped(L) ==> S.allows(k, k1) then Some(k1) else None
  {
    hide AlterColumn.Retyped, Takes, Meaning;
    ActOne(S, L, e, Retypes(L, c), k);
  }

  lemma RenullsAct(S: Server, L: Lexis, e: Engine, c: AlterColumn, k: ServerColumn)
    requires c.was.nullable == !k.notNull
    ensures var k1 := WithNull(c, k);
            ActColumn(S, L, e, Renulls(c), k) == if c.NullChanged() ==> S.allows(k, k1) then Some(k1) else None
  {
    hide Takes, Meaning;
    ActOne(S, L, e, Renulls(c), k);
  }

  lemma RedefaultsAct(S: Server, L: Lexis, e: Engine, c: AlterColumn, k: ServerColumn)
    requires L.Valid() && L.d == e.For() && (c.DefaultChanged() ==> DefaultOutcome(L, c.default) == Pass)
    ensures var k1 := WithDefault(L, e, c, k);
            ActColumn(S, L, e, Redefaults(L, e, c), k) ==
            if c.DefaultChanged() ==> Spellable(S, L, e, InSetDefault, c.default) && S.allows(k, k1) then Some(k1) else None
  {
    hide Meaning, Takes, Spellable, Wanted, DefaultValue, DefaultOutcome;
    ActOne(S, L, e, Redefaults(L, e, c), k);
    if c.DefaultChanged() { DefaultMeans(S, L, e, InSetDefault, c.default); }
  }

  lemma ActionsTarget(S: Server, L: Lexis, e: Engine, c: AlterColumn, k: ServerColumn)
    requires L.Valid() && L.d == e.For()
    requires c.DefaultChanged() ==> DefaultOutcome(L, c.default) == Pass
    requires c.was.name == k.name && c.was.dataType == k.typ && c.was.nullable == !k.notNull
    ensures ActColumn(S, L, e, Actions(L, e, c), k) ==
            if (c.DefaultChanged() ==> Spellable(S, L, e, InSetDefault, c.default)) && AspectsAllowed(S, L, e, c, k)
            then Some(Target(L, e, c, k).(name := k.name)) else None
    ensures forall a :: a in Actions(L, e, c) ==> a.col == c.was.name
  {
    hide ActColumn, Spellable, Wanted, DefaultValue, DefaultOutcome, AlterColumn.Retyped, AlterColumn.FinalType;
    var k1 := WithType(L, c, k);
    var k2 := WithNull(c, k1);
    RetypesAct(S, L, e, c, k);
    RenullsAct(S, L, e, c, k1);
    RedefaultsAct(S, L, e, c, k2);
    ActAppend(S, L, e, Retypes(L, c), Renulls(c), k);
    ActAppend(S, L, e, Retypes(L, c) + Renulls(c), Redefaults(L, e, c), k);
  }

  lemma ActOne(S: Server, L: Lexis, e: Engine, actions: seq<Action>, k: ServerColumn)
    requires |actions| <= 1
    ensures ActColumn(S, L, e, actions, k) == if actions == [] then Some(k) else Act(S, L, e, actions[0], k)
  {
  }

  lemma {:induction false} ActAppend(S: Server, L: Lexis, e: Engine, a: seq<Action>, b: seq<Action>, k: ServerColumn)
    ensures ActColumn(S, L, e, a + b, k) ==
            match ActColumn(S, L, e, a, k) { case None => None case Some(m) => ActColumn(S, L, e, b, m) }
  {
    hide Act;
    if a == [] {
      assert a + b == b;
    } else {
      assert (a + b)[0] == a[0] && (a + b)[1..] == a[1..] + b;
      var m := Act(S, L, e, a[0], k);
      if m.Some? { ActAppend(S, L, e, a[1..], b, m.value); }
    }
  }

  /** The RENAME COLUMN at the end, on the column as the actions left it. */
  lemma RenameLast(S: Server, L: Lexis, e: Engine, c: AlterColumn, t: Table, i: nat, k: ServerColumn)
    requires Distinct(t) && i < |t| && t[i].name == c.was.name == k.name
    ensures ExecAll(S, L, e, Rename(L, c), t[i := k]) ==
            if NameFree(L, c, t) && (c.Renamed(L) ==> S.allows(k, k.(name := c.FinalName(L))))
            then Some(t[i := k.(name := c.FinalName(L))]) else None
  {
    hide AlterColumn.FinalName;
    var u := t[i := k];
    if c.Renamed(L) {
      FindAt(u, i, k.name);
      FindSame(t, u, c.FinalName(L));
      assert Rename(L, c)[1..] == [];
      assert u[i := k.(name := c.FinalName(L))] == t[i := k.(name := c.FinalName(L))];
    } else {
      assert k.(name := c.FinalName(L)) == k;
    }
  }

  /** Actions first, the rename last: PostgreSQL's one statement, DuckDB's one
      for each and MySQL's default alone. */
  lemma SeparateReaches(S: Server, L: Lexis, e: Engine, c: AlterColumn, t: Table, i: nat)
    requires L.Valid() && L.d == e.For() && Distinct(t) && i < |t|
    requires c.DefaultChanged() ==> DefaultOutcome(L, c.default) == Pass
    requires c.was.name == t[i].name && c.was.dataType == t[i].typ && c.was.nullable == !t[i].notNull
    ensures ExecAll(S, L, e, SeparateAlter(L, e, c), t) ==
            var k := Target(L, e, c, t[i]);
            if NameFree(L, c, t) && (c.DefaultChanged() ==> Spellable(S, L, e, InSetDefault, c.default))
               && AspectsAllowed(S, L, e, c, t[i]) && (c.Renamed(L) ==> S.allows(k.(name := t[i].name), k))
            then Some(t[i := k]) else None
  {
    hide ActColumn, ActAll, ExecAll, Actions, Rename, NameFree, Spellable, Target, DefaultOutcome, AspectsAllowed;
    SinglesRun(S, L, e, Actions(L, e, c), Rename(L, c), t);
    ActionsTarget(S, L, e, c, t[i]);
    ActionsRun(S, L, e, Actions(L, e, c), t, i);
    var k := Target(L, e, c, t[i]);
    TargetName(L, e, c, t[i]);
    RenameLast(S, L, e, c, t, i, k.(name := t[i].name));
    assert k.(name := t[i].name).(name := c.FinalName(L)) == k;
  }

  lemma TargetName(L: Lexis, e: Engine, c: AlterColumn, k: ServerColumn)
    ensures Target(L, e, c, k).name == c.FinalName(L)
  {
  }

  lemma PgIsSeparate(S: Server, L: Lexis, e: Engine, c: AlterColumn, t: Table)
    ensures ExecAll(S, L, e, PgAlter(L, e, c), t) == ExecAll(S, L, e, SeparateAlter(L, e, c), t)
  {
    hide ActAll, Actions, Rename;
    var actions, rest := Actions(L, e, c), Rename(L, c);
    SinglesRun(S, L, e, actions, rest, t);
    if actions == [] {
      assert [] + rest == rest;
      assert Singles(actions) + rest == rest;
    } else {
      var list := [AlterTable(actions)] + rest;
      assert list[0] == AlterTable(actions) && list[1..] == rest;
    }
  }

  /** CHANGE COLUMN restates the whole column and so keeps what it does not
      change. */
  lemma ChangeReaches(S: Server, L: Lexis, e: Engine, c: AlterColumn, t: Table, i: nat, generated: bool)
    requires L.Valid() && L.d == e.For() && Rewrites(L, e, c) && Distinct(t) && i < |t|
    requires c.DefaultChanged() ==> DefaultOutcome(L, c.default) == Pass
    requires Describes(L, e, t[i], c.was, generated)
    ensures ExecAll(S, L, e, MysqlAlter(L, e, c), t) ==
            if NameFree(L, c, t) && DefaultSpellable(S, L, e, c, generated) && UpdateSuits(L, e, c, t[i])
               && S.allows(t[i], Target(L, e, c, t[i]))
            then Some(t[i := Target(L, e, c, t[i])]) else None
  {
    hide Meaning, Takes, TakesUpdate, Spellable, KeptSpellable, Wanted, DefaultValue, KeptDefault, DefaultOutcome, Trim, Lower,
      AutoIncrements, UpdateClause, IsGenerated, ReportsDefault, AlterColumn.FinalName, AlterColumn.FinalType;
    ExtraReadsBack(L, e, t[i], c.was, generated);
    if c.DefaultChanged() {
      DefaultMeans(S, L, e, InDefinition(c.FinalType(L), false), c.default);
    } else {
      KeptDefaultMeans(S, L, e, t[i], c.FinalType(L), c.was, generated);
    }
    FindAt(t, i, c.was.name);
    assert MysqlAlter(L, e, c)[1..] == [];
  }

  /** A change of the default alone, or of the name, leaves the rest of a MySQL
      column to itself. */
  lemma LightReaches(L: Lexis, e: Engine, c: AlterColumn, t: Table)
    requires e.MySQLish() && !c.Retyped(L) && !c.NullChanged()
    ensures MysqlAlter(L, e, c) == SeparateAlter(L, e, c)
  {
    hide AlterColumn.Retyped, DefaultAction, Rename;
    assert forall a: Action :: [] + [] + [a] == [a];
    assert forall a: Action :: [a][1..] == [] && Singles([a]) == [AlterTable([a])] + Singles([]);
    assert [AlterTable([DefaultAction(L, e, c.was.name, c.default)])] + Singles([]) ==
           [AlterTable([DefaultAction(L, e, c.was.name, c.default)])];
  }

  /** Every supported ALTER COLUMN, as its engine spells it: it names only
      columns that are there and ends in the column that was asked for, all
      others untouched, exactly when the new name is free, the default and a
      restated ON UPDATE are ones the engine takes where they stand, and the
      server allows every definition on the way; otherwise it fails. */
  lemma AlterReaches(S: Server, L: Lexis, e: Engine, c: AlterColumn, t: Table, i: nat, generated: bool)
    requires L.Valid() && L.d == e.For() && Rendered(L, e, c).Statements?
    requires Distinct(t) && i < |t| && Describes(L, e, t[i], c.was, generated)
    ensures ExecAll(S, L, e, Rendered(L, e, c).list, t) ==
            if NameFree(L, c, t) && DefaultSpellable(S, L, e, c, generated) && UpdateSuits(L, e, c, t[i])
               && Allowed(S, L, e, c, t[i])
            then Some(t[i := Target(L, e, c, t[i])]) else None
  {
    hide ExecAll, SeparateAlter, PgAlter, MysqlAlter, NameFree, Spellable, KeptSpellable, Target, DefaultOutcome, TypeOutcome,
      NeedName, ReportsDefault, AlterColumn.Retyped, AlterColumn.FinalName, AspectsAllowed, TakesUpdate;
    if Rewrites(L, e, c) {
      ChangeReaches(S, L, e, c, t, i, generated);
    } else {
      SeparateReaches(S, L, e, c, t, i);
      match e {
        case EnginePostgres => PgIsSeparate(S, L, e, c, t);
        case EngineSQLite => SQLiteRenames(L, e, c);
        case EngineMySQL => LightReaches(L, e, c, t);
        case EngineMariaDB => LightReaches(L, e, c, t);
        case EngineDuckDB =>
      }
    }
  }

  lemma SQLiteRenames(L: Lexis, e: Engine, c: AlterColumn)
    requires c.Renamed(L) && !c.Redefines(L)
    ensures SeparateAlter(L, e, c) == [RenameColumn(c.was.name, c.FinalName(L))]
  {
    hide AlterColumn.FinalName, AlterColumn.Retyped;
    assert Actions(L, e, c) == [];
  }

  /** One request against one column: whatever each engine's introspection and
      spelling, all on which it does not fail end in the same table. Only an
      expression is the engine's own to read. */
  lemma EnginesAgree(S: Server, L: Lexis, e: Engine, c: AlterColumn, generated: bool,
                     S': Server, L': Lexis, e': Engine, c': AlterColumn, generated': bool, t: Table, i: nat)
    requires L.Valid() && L.d == e.For() && L'.Valid() && L'.d == e'.For() && L.space == L'.space
    requires c' == c.(was := c'.was) && (c.default.kind == DefaultExpr ==> Wanted(L, e, c.default) == Wanted(L', e', c.default))
    requires Rendered(L, e, c).Statements? && Rendered(L', e', c').Statements?
    requires Distinct(t) && i < |t| && Describes(L, e, t[i], c.was, generated) && Describes(L', e', t[i], c'.was, generated')
    requires DefaultSpellable(S, L, e, c, generated) && UpdateSuits(L, e, c, t[i]) && Allowed(S, L, e, c, t[i])
    requires DefaultSpellable(S', L', e', c', generated') && UpdateSuits(L', e', c', t[i]) && Allowed(S', L', e', c', t[i])
    ensures ExecAll(S, L, e, Rendered(L, e, c).list, t) == ExecAll(S', L', e', Rendered(L', e', c').list, t)
  {
    AlterReaches(S, L, e, c, t, i, generated);
    AlterReaches(S', L', e', c', t, i, generated');
    hide Rendered, ExecAll, Describes, DefaultSpellable, Meaning, Distinct, UpdateSuits, Allowed;
    assert Target(L, e, c, t[i]) == Target(L', e', c', t[i]);
  }

  /** The column that comes out does not share its name. */
  lemma StaysDistinct(L: Lexis, e: Engine, c: AlterColumn, t: Table, i: nat)
    requires Distinct(t) && i < |t| && t[i].name == c.was.name && NameFree(L, c, t)
    ensures Distinct(t[i := Target(L, e, c, t[i])])
  {
    hide Wanted, AlterColumn.FinalName, AlterColumn.FinalType;
    var k := Target(L, e, c, t[i]);
    forall j | 0 <= j < |t| && j != i
      ensures t[j].name != k.name
    {
      if c.Renamed(L) { assert t[j].name != c.FinalName(L); }
    }
  }

  // ---------- the methods ----------

  /** mysqlAlterColumn: as little of the column as it can. */
  method MysqlAlterColumn(L: Lexis, e: Engine, c: AlterColumn) returns (out: seq<Alter>)
    ensures out == MysqlAlter(L, e, c)
  {
    hide DefaultAction, DefaultValue, KeptDefault, Trim, IndexOf, Lower, OnUpdate, Auto,
      AlterColumn.FinalName, AlterColumn.FinalType, AlterColumn.Retyped;
    if c.Retyped(L) || c.NullChanged() {
      var default: Option<string>;
      if c.DefaultChanged() {
        default := DefaultValue(L, e, c.default);
      } else {
        default := KeptDefault(L, e, c.was);
      }
      var extra := Lower(c.was.extra);
      var auto := IndexOf(extra, Auto()) >= 0;
      var upd: Option<string> := None;
      var i := IndexOf(extra, OnUpdate());
      if i >= 0 {
        upd := Some(Trim(L.space, c.was.extra[i + |OnUpdate()|..]));
      }
      return [ChangeColumn(c.was.name, c.FinalName(L), c.FinalType(L), c.notNull, default, auto, upd)];
    }
    out := [];
    if c.DefaultChanged() {
      out := out + [AlterTable([DefaultAction(L, e, c.was.name, c.default)])];
    }
    if c.Renamed(L) {
      out := out + [RenameColumn(c.was.name, c.FinalName(L))];
    }
  }

  /** schemaStatements for an AlterColumn. */
  method SchemaStatements(L: Lexis, e: Engine, c: AlterColumn) returns (r: Rendering)
    ensures r == Rendered(L, e, c)
  {
    hide PgAlter, MysqlAlter, SeparateAlter, TypeOutcome, DefaultOutcome, NeedName, AlterColumn.Retyped, AlterColumn.FinalName,
      AlterColumn.Redefines;
    if !c.Renamed(L) && !c.Redefines(L) {
      return NothingToChange;
    }
    if e == EngineSQLite && c.Redefines(L) {
      return Unsupported;
    }
    var fault := NeedName(L, c.FinalName(L));
    if fault == Pass && c.Retyped(L) {
      fault := ValidateTypeName(L, c.typ);
    }
    if fault == Pass && c.DefaultChanged() {
      fault := DefaultOutcome(L, c.default);
    }
    if fault.Fail? {
      return Refused(fault.fault);
    }
    var list: seq<Alter>;
    match e {
      case EnginePostgres => list := PgAlterColumn(L, e, c);
      case EngineMySQL => list := MysqlAlterColumn(L, e, c);
      case EngineMariaDB => list := MysqlAlterColumn(L, e, c);
      case EngineSQLite => list := [RenameColumn(c.was.name, c.FinalName(L))];
      case EngineDuckDB => list := AlterColumnSeparate(L, e, c);
    }
    return Statements(list);
  }
}
