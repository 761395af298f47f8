/** What a rendered CREATE TABLE reads back as. `Read` walks the tokens of a
    statement the way an engine's parser would see them: it wants a head
    without structure, one parenthesized list, and nothing after it, and it
    collects the items between the list's own commas. */
module CreateTableStructure {
  import opened Wrappers
  import opened Text
  import opened Sqlhl
  import opened SqlhlLocality
  import opened Literal
  import opened Fragments
  import opened Ddl

  datatype Reading =
    | Before
    | Within(depth: nat, items: seq<string>, cur: string)
    | After(items: seq<string>)
    | Broken

  predicate Structural(c: char) { c == ';' || c == '(' || c == ')' || c == ',' }

  function Read(st: Reading, c: char, k: Kind): Reading {
    if k == Comment then Broken
    else match st
      case Broken => Broken
      case After(_) => Broken
      case Before =>
        if k != Operator || !Structural(c) then Before
        else if c == '(' then Within(0, [], "") else Broken
      case Within(d, items, cur) =>
        if k != Operator || !Structural(c) then Within(d, items, cur + [c])
        else if c == ';' then Broken
        else if c == '(' then Within(d + 1, items, cur + [c])
        else if c == ')' then if d == 0 then After(items + [cur]) else Within(d - 1, items, cur + [c])
        else if d == 0 then Within(0, items + [cur], "")
        else Within(d, items, cur + [c])
  }

  function ReadAll(st: Reading, s: string, ks: seq<Kind>): Reading
    requires |s| == |ks|
    decreases |s|
  {
    if s == [] then st else ReadAll(Read(st, s[0], ks[0]), s[1..], ks[1..])
  }

  lemma ReadStep(st: Reading, c: char, k: Kind, r: string, kr: seq<Kind>)
    requires |r| == |kr|
    ensures ReadAll(st, [c] + r, [k] + kr) == ReadAll(Read(st, c, k), r, kr)
    ensures ReadAll(st, [], []) == st
  {
    hide Read;
    assert ([c] + r)[1..] == r && ([k] + kr)[1..] == kr;
  }

  lemma {:induction false} ReadAppend(st: Reading, s: string, ks: seq<Kind>, t: string, kt: seq<Kind>)
    requires |s| == |ks| && |t| == |kt|
    ensures ReadAll(st, s + t, ks + kt) == ReadAll(ReadAll(st, s, ks), t, kt)
    decreases |s|
  {
    hide Read;
    if s == [] {
      assert s + t == t && ks + kt == kt;
    } else {
      assert (s + t)[1..] == s[1..] + t && (ks + kt)[1..] == ks[1..] + kt;
      ReadAppend(Read(st, s[0], ks[0]), s[1..], ks[1..], t, kt);
    }
  }

  /** Reading a text that balances inside the list only lengthens the item. */
  lemma {:induction false} ReadBalanced(items: seq<string>, cur: string, s: string, ks: seq<Kind>, depth: nat)
    requires |s| == |ks| && Nest(s, ks, depth).Depth?
    ensures ReadAll(Within(depth, items, cur), s, ks) == Within(Nest(s, ks, depth).depth, items, cur + s)
    decreases |s|
  {
    if s == [] {
      assert cur + s == cur;
    } else {
      var d := if ks[0] == Operator && s[0] == '(' then depth + 1
               else if ks[0] == Operator && s[0] == ')' then depth - 1
               else depth;
      ReadBalanced(items, cur + [s[0]], s[1..], ks[1..], d);
      assert cur + [s[0]] + s[1..] == cur + s;
    }
  }

  /** No comment and no structure. */
  predicate Flat(s: string, ks: seq<Kind>)
    requires |s| == |ks|
  {
    forall i :: 0 <= i < |s| ==> ks[i] != Comment && (ks[i] == Operator ==> !Structural(s[i]))
  }

  lemma {:induction false} ReadFlat(s: string, ks: seq<Kind>)
    requires |s| == |ks| && Flat(s, ks)
    ensures ReadAll(Before, s, ks) == Before
  {
    if s != [] {
      ReadFlat(s[1..], ks[1..]);
    }
  }

  /** The items a list of definitions reads back as: each as rendered, after
      the space that follows a comma. */
  function Items(defs: seq<string>): (r: seq<string>)
    ensures |r| == |defs|
  {
    seq(|defs|, i requires 0 <= i < |defs| => if i == 0 then defs[0] else " " + defs[i])
  }

  ghost predicate AllFragments(L: Lexis, defs: seq<string>) {
    forall i :: 0 <= i < |defs| ==> defs[i] != [] && Fragment(L, defs[i])
  }

  lemma {:induction false} ReadJoin(L: Lexis, defs: seq<string>)
    requires L.Valid() && defs != [] && AllFragments(L, defs)
    ensures var s := Join(defs, ", ");
            && Settles(L, s)
            && ReadAll(Within(0, [], ""), s, Kinds(L, s)) == Within(0, Items(defs)[..|defs| - 1], Items(defs)[|defs| - 1])
  {
    hide Lead, Settles, Nest, ReadAll, Read, Items, Join, Kinds;
    var n := |defs| - 1;
    var p := defs[n];
    var items := Items(defs);
    assert Fragment(L, p);
    ItemsAt(defs);
    if n == 0 {
      JoinOne(defs);
      ReadBalanced([], "", p, Kinds(L, p), 0);
      assert "" + p == p && items[..0] == [];
    } else {
      var less := defs[..n];
      ReadJoin(L, less);
      assert defs == less + [p];
      JoinSnoc(less, p, ", ");
      ItemsAt(less);
      var done, cur := Items(less)[..n - 1], Items(less)[n - 1];
      ReadOneMore(L, Join(less, ", "), p, done, cur);
      assert done + [cur] == items[..n];
    }
  }

  /** Reading one more definition after a comma. */
  lemma ReadOneMore(L: Lexis, a: string, p: string, done: seq<string>, cur: string)
    requires L.Valid() && Settles(L, a) && Fragment(L, p) && p != []
    requires ReadAll(Within(0, [], ""), a, Kinds(L, a)) == Within(0, done, cur)
    ensures var s := a + ", " + p;
            && Settles(L, s)
            && ReadAll(Within(0, [], ""), s, Kinds(L, s)) == Within(0, done + [cur], " " + p)
  {
    hide Lead, Settles, Nest, ReadAll, Read, Kinds;
    var b := " " + p;
    var c := [','] + b;
    FragmentSpace(L, p);
    OperatorKinds(L, ',', b);
    OperatorSettles(L, ',', b);
    assert a + ", " + p == a + c;
    Locality(L, a, c);
    SettlesAppend(L, a, c);
    ReadAppend(Within(0, [], ""), a, Kinds(L, a), c, Kinds(L, c));
    ReadComma(done, cur, b, Kinds(L, b));
    ReadBalanced(done + [cur], "", b, Kinds(L, b), 0);
    assert "" + b == b;
  }

  lemma ItemsAt(defs: seq<string>)
    ensures forall i :: 0 <= i < |defs| ==> Items(defs)[i] == if i == 0 then defs[0] else " " + defs[i]
  {
  }

  lemma JoinOne(defs: seq<string>)
    requires |defs| == 1
    ensures Join(defs, ", ") == defs[0]
  {
  }

  lemma ReadComma(items: seq<string>, cur: string, s: string, ks: seq<Kind>)
    requires |s| == |ks|
    ensures ReadAll(Within(0, items, cur), [','] + s, [Operator] + ks) == ReadAll(Within(0, items + [cur], ""), s, ks)
  {
    assert ([','] + s)[1..] == s && ([Operator] + ks)[1..] == ks;
  }

  // ---------- the pieces of a CREATE TABLE ----------

  lemma QualifiedFragment(L: Lexis, e: Engine, database: string, table: string)
    requires L.Valid() && L.d == e.For()
    ensures var q := QualifiedTable(e, database, table); Fragment(L, q) && q != [] && Flat(q, Kinds(L, q))
  {
    hide Lead, Nest, Settles, QuoteIdent;
    var d, t := QuoteIdent(e, database), QuoteIdent(e, table);
    QuoteIdentFragment(L, e, table);
    QuoteIdentReadsBack(L, e, table, []);
    if database != "" {
      QualifiedKinds(L, e, database, table);
      QualifiedShape(d, t);
    }
  }

  lemma QualifiedKinds(L: Lexis, e: Engine, database: string, table: string)
    requires L.Valid() && L.d == e.For()
    ensures var d, t := QuoteIdent(e, database), QuoteIdent(e, table);
            && Settles(L, d + "." + t)
            && Kinds(L, d + "." + t) == Rep(QuotedIdent, |d|) + ([Operator] + Rep(QuotedIdent, |t|))
  {
    hide Lead, Nest, Settles;
    var d, t := QuoteIdent(e, database), QuoteIdent(e, table);
    QuoteIdentFragment(L, e, table);
    var r := "." + t;
    assert d + "." + t == d + r;
    QuoteIdentReadsBack(L, e, database, r);
    QuoteIdentReadsBack(L, e, database, r + SENTINEL);
    DotKinds(L, e, t);
    LeadThen(L, d, r);
  }

  /** A name that is qualified reads as name, dot, name. */
  lemma QualifiedShape(d: string, t: string)
    ensures var s, ks := d + "." + t, Rep(QuotedIdent, |d|) + ([Operator] + Rep(QuotedIdent, |t|));
            Nest(s, ks, 0) == Depth(0) && Flat(s, ks)
  {
    hide Nest;
    var kd, kt := Rep(QuotedIdent, |d|), Rep(QuotedIdent, |t|);
    assert d + "." + t == d + ("." + t);
    NestAppend(d, kd, "." + t, [Operator] + kt, 0);
    NestNone(d, kd, 0);
    NestNone(t, kt, 0);
    NestDot(t, kt);
  }

  lemma NestDot(s: string, ks: seq<Kind>)
    requires |s| == |ks|
    ensures Nest("." + s, [Operator] + ks, 0) == Nest(s, ks, 0)
  {
    assert ("." + s)[1..] == s && ([Operator] + ks)[1..] == ks;
  }

  lemma DotKinds(L: Lexis, e: Engine, t: string)
    requires L.Valid() && Settles(L, t) && t != [] && t[0] == e.IdentQuote()
    ensures Settles(L, "." + t) && Kinds(L, "." + t) == [Operator] + Kinds(L, t)
  {
    var s := "." + t;
    assert s[0] == '.' && s[1..] == t && At(s, 1) == t[0];
    var b := s + SENTINEL;
    assert b[0] == '.' && b[1..] == t + SENTINEL && At(b, 1) == t[0];
    assert '.' !in L.space && '.' !in L.digit && '.' !in L.letter;
    assert Lead(L, s) == Lexeme(Operator, 1) == Lead(L, b);
    hide Lead;
    assert Rep(Operator, 1) == [Operator];
  }

  /** A lexeme that ends where a settled text starts. */
  lemma LeadThen(L: Lexis, d: string, r: string)
    requires d != [] && Settles(L, r)
    requires Lead(L, d + r).len == |d| && Lead(L, d + (r + SENTINEL)).len == |d|
    ensures Settles(L, d + r)
    ensures Kinds(L, d + r) == Rep(Lead(L, d + r).kind, |d|) + Kinds(L, r)
  {
    hide Lead;
    assert (d + r) + SENTINEL == d + (r + SENTINEL);
    assert (d + r)[|d|..] == r;
  }

  /** Words of a statement. */
  predicate Words(s: string) {
    && s != [] && s[|s| - 1] != ' '
    && forall i :: 0 <= i < |s| ==> s[i] == ' ' || 'A' <= s[i] <= 'Z'
  }

  lemma WordsFragment(L: Lexis, s: string)
    requires L.Valid() && Words(s)
    ensures Fragment(L, s) && Flat(s, Kinds(L, s))
  {
    hide Lead, Settles, Nest;
    SimpleSettles(L, s);
    WordsNest(s);
    SimpleFragment(L, s);
  }

  lemma {:induction false} WordsNest(s: string)
    requires forall i :: 0 <= i < |s| ==> s[i] == ' ' || 'A' <= s[i] <= 'Z'
    ensures CharNest(s, 0) == Depth(0)
  {
    if s != [] {
      assert s[0] == ' ' || 'A' <= s[0] <= 'Z';
      WordsNest(s[1..]);
    }
  }

  lemma HeadFragment(L: Lexis, e: Engine, c: CreateTable)
    requires L.Valid() && L.d == e.For()
    ensures var h := CreateTableHead(e, c); Fragment(L, h) && Flat(h, Kinds(L, h))
  {
    hide Lead, Settles, Nest, Kinds, Fragment, Flat, QualifiedTable, Words;
    var q := QualifiedTable(e, c.database, c.table);
    CreateWords();
    WordsFragment(L, "CREATE TABLE");
    QualifiedFragment(L, e, c.database, c.table);
    FragmentSpace(L, q);
    FragmentAppend(L, "CREATE TABLE", " " + q);
    assert (" " + q)[1..] == q && ([Plain] + Kinds(L, q))[1..] == Kinds(L, q);
    FlatAppend("CREATE TABLE", Kinds(L, "CREATE TABLE"), " " + q, [Plain] + Kinds(L, q));
  }

  lemma CreateWords()
    ensures Words("CREATE TABLE")
  {
  }

  lemma FlatAppend(s: string, ks: seq<Kind>, t: string, kt: seq<Kind>)
    requires |s| == |ks| && |t| == |kt| && Flat(s, ks)
    requires |t| > 0 && kt[0] == Plain && Flat(t[1..], kt[1..])
    ensures Flat(s + t, ks + kt)
  {
    assert forall i :: 1 <= i < |t| ==> t[i] == t[1..][i - 1] && kt[i] == kt[1..][i - 1];
  }

  /** An expression default is a fragment however MySQL spells it. */
  lemma ExprDefaultFragment(L: Lexis, expr: string)
    requires L.Valid() && ExpressionOutcome(L, expr) == Pass
    ensures var v := MysqlExprDefault(L, expr); Fragment(L, v) && v != []
  {
    hide Lead, Settles, Nest;
    ExpressionFragment(L, expr);
    var e := Trim(L.space, expr);
    NestLift(e, Kinds(L, e), 0, 1);
    FragmentParens(L, e);
  }

  lemma DefaultFragment(L: Lexis, e: Engine, def: ColumnDefault)
    requires L.Valid() && L.d == e.For() && DefaultOutcome(L, def) == Pass
    ensures var v := DefaultValue(L, e, def); v.Some? ==> Fragment(L, v.value) && v.value != []
  {
    hide Lead, Settles, Nest, MysqlExprDefault, NumberLiteral, ExpressionOutcome, QuoteString, Fragment;
    match def.kind
    case DefaultText =>
      QuoteStringFragment(L, e, def.value);
      QuoteStringReadsBack(L, e, def.value, []);
    case DefaultNumber =>
      NumberFragment(L, Trim(L.space, def.value));
    case DefaultExpr =>
      ExprDefaultFragment(L, def.value);
      ExpressionFragment(L, def.value);
    case DefaultNull =>
      WordsFragment(L, "NULL");
    case _ =>
  }

  /** The column an item of the list names: its first token, unquoted. */
  function ItemName(L: Lexis, e: Engine, item: string): Option<string> {
    var s := if item != [] && item[0] == ' ' then item[1..] else item;
    if s == [] then None
    else
      var l := Lead(L, s);
      if l.kind == QuotedIdent && l.len >= 2 then Some(Unescape(Inside(s[..l.len]), e.IdentQuote(), false)) else None
  }

  lemma ColumnDefName(L: Lexis, e: Engine, c: ColumnDef)
    requires L.Valid() && L.d == e.For()
    ensures var d := ColumnDefSQL(L, e, c);
            && d != [] && d[0] != ' '
            && ItemName(L, e, d) == Some(c.name)
  {
    hide Lead, Unescape, DefaultClause, Double;
    var id := QuoteIdent(e, c.name);
    var rest := (" " + Trim(L.space, c.typ)) + ((if c.notNull then " NOT NULL" else "") + DefaultClause(L, e, c.default));
    QuoteIdentReadsBack(L, e, c.name, rest);
    assert (id + rest)[..|id|] == id;
  }

  /** Every column definition the validators accept is a fragment that begins
      with the column's name. */
  lemma ColumnFragment(L: Lexis, e: Engine, c: ColumnDef)
    requires L.Valid() && L.d == e.For() && ColumnOutcome(L, c) == Pass
    ensures var d := ColumnDefSQL(L, e, c); Fragment(L, d) && d != [] && ItemName(L, e, d) == Some(c.name)
  {
    hide Lead, Settles, Nest, TypeOutcome, DefaultOutcome, NeedName, DefaultValue, QuoteIdent, Fragment, ItemName;
    ColumnDefName(L, e, c);
    var t := Trim(L.space, c.typ);
    QuoteIdentFragment(L, e, c.name);
    QuoteIdentReadsBack(L, e, c.name, []);
    TypeFragment(L, c.typ);
    FragmentSpace(L, t);
    var clause := DefaultClause(L, e, c.default);
    DefaultClauseFragment(L, e, c.default);
    var notNull := if c.notNull then " NOT NULL" else "";
    NotNullFragment(L, c.notNull);
    FragmentAppend(L, notNull, clause);
    FragmentAppend(L, " " + t, notNull + clause);
    FragmentAppend(L, QuoteIdent(e, c.name), (" " + t) + (notNull + clause));
  }

  lemma NotNullFragment(L: Lexis, notNull: bool)
    requires L.Valid()
    ensures var s := if notNull then " NOT NULL" else ""; Fragment(L, s) && Stopper(s)
  {
    hide Fragment;
    if notNull {
      WordsFragment(L, " NOT NULL");
    } else {
      EmptyFragment(L);
    }
  }

  lemma DefaultClauseFragment(L: Lexis, e: Engine, def: ColumnDefault)
    requires L.Valid() && L.d == e.For() && DefaultOutcome(L, def) == Pass
    ensures var s := DefaultClause(L, e, def); Fragment(L, s) && Stopper(s)
  {
    hide Lead, DefaultValue, DefaultOutcome, Fragment, Settles, Nest, Kinds;
    DefaultFragment(L, e, def);
    var dv := DefaultValue(L, e, def);
    if dv.Some? {
      var word, v := " DEFAULT", dv.value;
      FragmentSpace(L, v);
      WordsFragment(L, word);
      FragmentAppend(L, word, " " + v);
      assert word[0] == ' ' && (word + (" " + v))[0] == ' ';
    } else {
      EmptyFragment(L);
    }
  }

  lemma EmptyFragment(L: Lexis)
    ensures Fragment(L, "")
  {
  }

  lemma {:induction false} NamesFragment(L: Lexis, e: Engine, names: seq<string>)
    requires L.Valid() && L.d == e.For() && names != []
    ensures var s := QuoteAll(e, names); Settles(L, s) && Nest(s, Kinds(L, s), 1) == Depth(1)
  {
    hide Lead, Settles, Nest, QuoteIdent, Join, Kinds, ItemName;
    var n := |names| - 1;
    var q := QuoteIdent(e, names[n]);
    QuoteIdentFragment(L, e, names[n]);
    QuotedName(L, e, names[n]);
    var all := QuoteEach(e, names);
    if n == 0 {
      JoinOne(all);
      NestLift(q, Kinds(L, q), 0, 1);
    } else {
      var less := names[..n];
      NamesFragment(L, e, less);
      assert all == QuoteEach(e, less) + [q];
      JoinSnoc(QuoteEach(e, less), q, ", ");
      NamesGrow(L, QuoteAll(e, less), q);
    }
  }

  lemma NamesGrow(L: Lexis, a: string, q: string)
    requires L.Valid() && Settles(L, a) && Nest(a, Kinds(L, a), 1) == Depth(1) && Fragment(L, q) && q != []
    ensures var s := a + ", " + q; Settles(L, s) && Nest(s, Kinds(L, s), 1) == Depth(1)
  {
    hide Lead, Settles, Nest, Kinds;
    var b := " " + q;
    var c := [','] + b;
    assert a + ", " + q == a + c;
    NestLift(q, Kinds(L, q), 0, 1);
    FragmentSpace(L, q);
    OperatorKinds(L, ',', b);
    OperatorSettles(L, ',', b);
    Locality(L, a, c);
    SettlesAppend(L, a, c);
    NestAppend(a, Kinds(L, a), c, Kinds(L, c), 1);
    NestCommaSpace(q, Kinds(L, q), 1);
  }

  lemma NestCommaSpace(s: string, ks: seq<Kind>, depth: nat)
    requires |s| == |ks| && depth > 0
    ensures Nest([','] + (" " + s), [Operator] + ([Plain] + ks), depth) == Nest(s, ks, depth)
  {
    var b, kb := " " + s, [Plain] + ks;
    assert ([','] + b)[1..] == b && ([Operator] + kb)[1..] == kb;
    assert b[1..] == s && kb[1..] == ks;
  }

  lemma KeyFragment(L: Lexis, e: Engine, names: seq<string>)
    requires L.Valid() && L.d == e.For() && names != []
    ensures var s := KeyClause(e, names); Fragment(L, s) && s != []
  {
    hide Lead, Settles, Nest, QuoteAll;
    var p := Parens(QuoteAll(e, names));
    NamesFragment(L, e, names);
    FragmentParens(L, QuoteAll(e, names));
    FragmentSpace(L, p);
    WordsFragment(L, "PRIMARY KEY");
    FragmentAppend(L, "PRIMARY KEY", " " + p);
  }

  lemma DefinitionFragments(L: Lexis, e: Engine, c: CreateTable)
    requires L.Valid() && L.d == e.For() && Accepts(L, c)
    ensures AllFragments(L, Definitions(L, e, c))
  {
    hide Lead, Settles, Nest, ColumnOutcome, NeedName, ColumnDefSQL, KeyClause, Fragment, KeyNames;
    var defs := Definitions(L, e, c);
    forall i | 0 <= i < |defs|
      ensures defs[i] != [] && Fragment(L, defs[i])
    {
      if i < |c.columns| {
        ColumnFragment(L, e, c.columns[i]);
        assert defs[i] == ColumnDefSQL(L, e, c.columns[i]);
      } else {
        KeyFragment(L, e, KeyNames(c.columns));
      }
    }
  }

  /** A head without structure and a parenthesized list of fragments read as
      that list. */
  lemma ListReads(L: Lexis, h: string, defs: seq<string>)
    requires L.Valid() && Fragment(L, h) && Flat(h, Kinds(L, h)) && defs != [] && AllFragments(L, defs)
    ensures var s := h + (" " + Parens(Join(defs, ", ")));
            ReadAll(Before, s, Kinds(L, s)) == After(Items(defs))
  {
    hide Lead, Settles, Nest, ReadAll, Items, Join;
    var body := Join(defs, ", ");
    ReadJoin(L, defs);
    ParensKinds(L, body);
    var p := Parens(body);
    assert ' ' in L.space && " " == [' '];
    SpaceKinds(L, ' ', p);
    Locality(L, h, " " + p);
    var kb := Kinds(L, body);
    var kp := [Operator] + kb + [Operator];
    ReadAppend(Before, h, Kinds(L, h), " " + p, [Plain] + kp);
    ReadFlat(h, Kinds(L, h));
    ReadOpen(body, kb);
    ReadAppend(Within(0, [], ""), body, kb, ")", [Operator]);
    var items := Items(defs);
    var n := |items| - 1;
    ReadClose(items[..n], items[n]);
    assert items[..n] + [items[n]] == items;
  }

  /** The main result: whatever names, texts, types and expressions an accepted
      CREATE TABLE holds, its engine's tokens read as one list whose items are
      exactly the rendered column definitions and the key. */
  lemma CreateTableReads(L: Lexis, e: Engine, c: CreateTable)
    requires L.Valid() && L.d == e.For() && Accepts(L, c)
    ensures var sql := CreateTableSQL(L, e, c);
            ReadAll(Before, sql, Kinds(L, sql)) == After(Items(Definitions(L, e, c)))
  {
    hide ReadAll, Items, Join, Definitions, CreateTableHead, Accepts, Fragment, Flat, AllFragments;
    HeadFragment(L, e, c);
    DefinitionFragments(L, e, c);
    SomeDefinition(L, e, c);
    ListReads(L, CreateTableHead(e, c), Definitions(L, e, c));
  }

  lemma SomeDefinition(L: Lexis, e: Engine, c: CreateTable)
    requires Accepts(L, c)
    ensures Definitions(L, e, c) != []
  {
  }

  lemma ReadOpen(body: string, kb: seq<Kind>)
    requires |body| == |kb|
    ensures ReadAll(Before, " " + Parens(body), [Plain] + ([Operator] + kb + [Operator])) ==
            ReadAll(Within(0, [], ""), body + ")", kb + [Operator])
  {
    hide ReadAll;
    var p, kp := Parens(body), [Operator] + kb + [Operator];
    ReadStep(Before, ' ', Plain, p, kp);
    ReadStep(Before, '(', Operator, body + ")", kb + [Operator]);
    assert p == ['('] + (body + ")") && kp == [Operator] + (kb + [Operator]);
    assert " " + p == [' '] + p;
  }

  lemma ReadClose(items: seq<string>, cur: string)
    ensures ReadAll(Within(0, items, cur), ")", [Operator]) == After(items + [cur])
  {
    assert ")"[1..] == "" && [Operator][1..] == [];
  }

  // ---------- what a reading says ----------

  lemma {:induction false} BrokenStays(st: Reading, s: string, ks: seq<Kind>)
    requires |s| == |ks| && (st == Broken || (st.After? && s != []))
    ensures ReadAll(st, s, ks) == Broken
    decreases |s|
  {
    if s != [] {
      BrokenStays(Broken, s[1..], ks[1..]);
    }
  }

  lemma JoinLonger(items: seq<string>, cur: string, c: char)
    ensures Join(items + [cur + [c]], ",") == Join(items + [cur], ",") + [c]
  {
    hide Join;
    JoinSnoc(items, cur, ",");
    JoinSnoc(items, cur + [c], ",");
  }

  lemma JoinNext(items: seq<string>)
    requires items != []
    ensures Join(items + [""], ",") == Join(items, ",") + [',']
  {
    hide Join;
    JoinSnoc(items, "", ",");
  }

  /** No comment, and no semicolon that is an operator. */
  predicate Unbroken(s: string, ks: seq<Kind>)
    requires |s| == |ks|
  {
    forall i :: 0 <= i < |s| ==> ks[i] != Comment && (ks[i] == Operator ==> s[i] != ';')
  }

  lemma UnbrokenCons(c: char, k: Kind, r: string, kr: seq<Kind>)
    requires |r| == |kr| && Unbroken(r, kr) && k != Comment && (k == Operator ==> c != ';')
    ensures Unbroken([c] + r, [k] + kr)
  {
    assert forall i :: 1 <= i < |r| + 1 ==> ([c] + r)[i] == r[i - 1] && ([k] + kr)[i] == kr[i - 1];
  }

  /** A list that reads to its end is its items put back together with their
      commas, closed by the last character, and free of semicolons and
      comments. */
  lemma {:induction false} WithinMeans(depth: nat, items: seq<string>, cur: string, s: string, ks: seq<Kind>, all: seq<string>)
    requires |s| == |ks| && ReadAll(Within(depth, items, cur), s, ks) == After(all)
    ensures Join(items + [cur], ",") + s == Join(all, ",") + ")"
    ensures Unbroken(s, ks)
    decreases |s|
  {
    hide Join, ReadAll, Unbroken;
    ReadStep(Within(depth, items, cur), ' ', Plain, [], []);
    assert s != [];
    var c, k, r, kr := s[0], ks[0], s[1..], ks[1..];
    ReadStep(Within(depth, items, cur), c, k, r, kr);
    var sofar := Join(items + [cur], ",");
    assert s == [c] + r && ks == [k] + kr;
    assert sofar + s == (sofar + [c]) + r;
    if k == Comment || (k == Operator && c == ';') {
      BrokenStays(Broken, r, kr);
    } else if k == Operator && c == ')' && depth == 0 {
      if r != [] { BrokenStays(After(items + [cur]), r, kr); }
      ReadStep(After(items + [cur]), ' ', Plain, [], []);
      NothingRead();
      UnbrokenCons(c, k, r, kr);
    } else if k == Operator && c == ',' && depth == 0 {
      WithinMeans(0, items + [cur], "", r, kr, all);
      UnbrokenCons(c, k, r, kr);
      JoinNext(items + [cur]);
    } else {
      var d := if k == Operator && c == '(' then depth + 1 else if k == Operator && c == ')' then depth - 1 else depth;
      WithinMeans(d, items, cur + [c], r, kr, all);
      UnbrokenCons(c, k, r, kr);
      JoinLonger(items, cur, c);
    }
  }

  /** The same for the whole statement: a head without structure, then the
      list, then nothing. */
  lemma {:induction false} ReadingMeans(s: string, ks: seq<Kind>, all: seq<string>) returns (head: string)
    requires |s| == |ks| && ReadAll(Before, s, ks) == After(all)
    ensures s == head + "(" + Join(all, ",") + ")"
    ensures Flat(head, ks[..|head|])
    ensures Unbroken(s, ks)
    decreases |s|
  {
    hide Join, Flat, ReadAll, Unbroken, Structural;
    ReadStep(Before, ' ', Plain, [], []);
    assert s != [];
    var c, k, r, kr := s[0], ks[0], s[1..], ks[1..];
    assert s == [c] + r && ks == [k] + kr;
    ReadStep(Before, c, k, r, kr);
    BeforeOpens();
    if k == Operator && c == '(' {
      WithinMeans(0, [], "", r, kr, all);
      NothingRead();
      UnbrokenCons(c, k, r, kr);
      head := "";
      assert s == "(" + (Join(all, ",") + ")");
      assert "" + "(" == "(";
    } else if k == Comment || (k == Operator && Structural(c)) {
      assert Read(Before, c, k) == Broken;
      BrokenStays(Broken, r, kr);
      head := "";
    } else {
      var h := ReadingMeans(r, kr, all);
      head := [c] + h;
      HeadCons(c, h, Join(all, ","));
      assert ks[..|head|] == [k] + kr[..|h|];
      FlatCons(c, k, h, kr[..|h|]);
      UnbrokenCons(c, k, r, kr);
    }
  }

  lemma BeforeOpens()
    ensures Read(Before, '(', Operator) == Within(0, [], "") && Structural(';')
  {
  }

  lemma HeadCons(c: char, h: string, body: string)
    ensures [c] + (h + "(" + body + ")") == [c] + h + "(" + body + ")"
  {
  }

  lemma NothingRead()
    ensures [] + [""] == [""] && Join([""], ",") == "" && Flat("", []) && Unbroken("", [])
  {
  }

  lemma FlatCons(c: char, k: Kind, h: string, kh: seq<Kind>)
    requires |h| == |kh| && Flat(h, kh) && k != Comment && !(k == Operator && Structural(c))
    ensures Flat([c] + h, [k] + kh)
  {
    assert forall i :: 1 <= i < |h| + 1 ==> ([c] + h)[i] == h[i - 1] && ([k] + kh)[i] == kh[i - 1];
  }

  // ---------- the key ----------

  /** The key columns, by position. */
  function KeyIndexes(cols: seq<ColumnDef>): (r: seq<nat>)
    ensures forall k :: 0 <= k < |r| ==> r[k] < |cols|
  {
    if cols == [] then []
    else
      var n := |cols| - 1;
      KeyIndexes(cols[..n]) + if cols[n].primaryKey then [n] else []
  }

  /** Every key column, no other, and each once, in column order. */
  lemma {:induction false} KeyIndexesAre(cols: seq<ColumnDef>)
    ensures var at := KeyIndexes(cols);
            && (forall j, k :: 0 <= j < k < |at| ==> at[j] < at[k])
            && (forall i :: 0 <= i < |cols| ==> (i in at <==> cols[i].primaryKey))
  {
    if cols != [] {
      var n := |cols| - 1;
      var less := KeyIndexes(cols[..n]);
      KeyIndexesAre(cols[..n]);
      if cols[n].primaryKey {
        InSnoc(less, n);
      } else {
        assert KeyIndexes(cols) == less + [] == less;
      }
      forall i | 0 <= i < |cols|
        ensures i in KeyIndexes(cols) <==> cols[i].primaryKey
      {
        if i < n { assert cols[i] == cols[..n][i]; }
      }
    }
  }

  lemma InSnoc(s: seq<nat>, n: nat)
    ensures forall i: nat :: i in s + [n] <==> i in s || i == n
  {
    assert (s + [n])[|s|] == n;
    assert forall k :: 0 <= k < |s| ==> (s + [n])[k] == s[k];
  }

  /** The key names the key columns. */
  lemma {:induction false} KeyNamesAre(cols: seq<ColumnDef>)
    ensures var at, names := KeyIndexes(cols), KeyNames(cols);
            |names| == |at| && forall k :: 0 <= k < |at| ==> names[k] == cols[at[k]].name
  {
    if cols != [] {
      KeyNamesAre(cols[..|cols| - 1]);
    }
  }

  /** PRIMARY KEY and its names read as a list of exactly those names. */
  lemma KeyReads(L: Lexis, e: Engine, names: seq<string>)
    requires L.Valid() && L.d == e.For() && names != []
    ensures var s, items := KeyClause(e, names), Items(QuoteEach(e, names));
            && ReadAll(Before, s, Kinds(L, s)) == After(items)
            && forall k :: 0 <= k < |names| ==> ItemName(L, e, items[k]) == Some(names[k])
  {
    hide Lead, Settles, Nest, ReadAll, Fragment, Join, QuoteIdent, ItemName, Items;
    var each := QuoteEach(e, names);
    WordsFragment(L, "PRIMARY KEY");
    forall k | 0 <= k < |each|
      ensures each[k] != [] && Fragment(L, each[k])
      ensures ItemName(L, e, each[k]) == ItemName(L, e, " " + each[k]) == Some(names[k])
    {
      QuoteIdentFragment(L, e, names[k]);
      QuotedName(L, e, names[k]);
    }
    ListReads(L, "PRIMARY KEY", each);
    ItemsAt(each);
  }

  lemma QuotedName(L: Lexis, e: Engine, name: string)
    requires L.Valid() && L.d == e.For()
    ensures var q := QuoteIdent(e, name); q != [] && ItemName(L, e, q) == ItemName(L, e, " " + q) == Some(name)
  {
    hide Lead, Unescape, Double;
    var q := QuoteIdent(e, name);
    QuoteIdentReadsBack(L, e, name, "");
    assert q + "" == q && q[..|q|] == q && (" " + q)[1..] == q;
  }

  /** The last item of a table with a key reads, in its turn, as a list that
      names its key columns, in column order. */
  lemma KeyItemReads(L: Lexis, e: Engine, c: CreateTable)
    requires L.Valid() && L.d == e.For() && Accepts(L, c) && KeyIndexes(c.columns) != []
    ensures var n, at := |c.columns|, KeyIndexes(c.columns);
            var items := Items(Definitions(L, e, c));
            && |items| == n + 1
            && var key := ReadAll(Before, items[n], Kinds(L, items[n]));
            && key.After? && |key.items| == |at|
            && forall k :: 0 <= k < |at| ==> ItemName(L, e, key.items[k]) == Some(c.columns[at[k]].name)
  {
    hide Lead, Settles, Nest, ReadAll, Items, ItemName, QuoteEach, KeyNames, KeyIndexes, ColumnDefSQL, ColumnOutcome, KeyClause, Fragment;
    KeyNamesAre(c.columns);
    var names, defs := KeyNames(c.columns), Definitions(L, e, c);
    var s, n := KeyClause(e, names), |c.columns|;
    assert n > 0;
    KeyFragment(L, e, names);
    FragmentSpace(L, s);
    KeyReads(L, e, names);
    ItemsAt(defs);
    assert defs[n] == s;
    ReadStep(Before, ' ', Plain, s, Kinds(L, s));
    assert " " + s == [' '] + s;
  }

  // ---------- the commas ----------

  /** The commas of a list: those in one pair of parentheses, depth pairs being
      open. */
  function ListCommas(s: string, ks: seq<Kind>, depth: nat): nat
    requires |s| == |ks|
    decreases |s|
  {
    if s == [] then 0
    else
      var c := if ks[0] == Operator then s[0] else ' ';
      var d := if c == '(' then depth + 1 else if c == ')' && depth > 0 then depth - 1 else depth;
      (if c == ',' && depth == 1 then 1 else 0) + ListCommas(s[1..], ks[1..], d)
  }

  lemma {:induction false} WithinCommas(depth: nat, items: seq<string>, cur: string, s: string, ks: seq<Kind>, all: seq<string>)
    requires |s| == |ks| && ReadAll(Within(depth, items, cur), s, ks) == After(all)
    ensures |items| + 1 + ListCommas(s, ks, depth + 1) == |all|
    decreases |s|
  {
    hide ReadAll;
    ReadStep(Within(depth, items, cur), ' ', Plain, [], []);
    assert s != [];
    var c, k, r, kr := s[0], ks[0], s[1..], ks[1..];
    assert s == [c] + r && ks == [k] + kr;
    ReadStep(Within(depth, items, cur), c, k, r, kr);
    if k == Comment || (k == Operator && c == ';') {
      BrokenStays(Broken, r, kr);
    } else if k == Operator && c == ')' && depth == 0 {
      if r != [] { BrokenStays(After(items + [cur]), r, kr); }
      ReadStep(After(items + [cur]), ' ', Plain, [], []);
    } else if k == Operator && c == ',' && depth == 0 {
      WithinCommas(0, items + [cur], "", r, kr, all);
    } else {
      var d := if k == Operator && c == '(' then depth + 1 else if k == Operator && c == ')' then depth - 1 else depth;
      WithinCommas(d, items, cur + [c], r, kr, all);
    }
  }

  /** A text that reads as a list has one comma of it between two items. */
  lemma {:induction false} ReadingCommas(s: string, ks: seq<Kind>, all: seq<string>)
    requires |s| == |ks| && ReadAll(Before, s, ks) == After(all)
    ensures ListCommas(s, ks, 0) + 1 == |all|
    decreases |s|
  {
    hide ReadAll;
    ReadStep(Before, ' ', Plain, [], []);
    assert s != [];
    var c, k, r, kr := s[0], ks[0], s[1..], ks[1..];
    assert s == [c] + r && ks == [k] + kr;
    ReadStep(Before, c, k, r, kr);
    if k == Operator && c == '(' {
      WithinCommas(0, [], "", r, kr, all);
    } else if k == Comment || (k == Operator && Structural(c)) {
      BrokenStays(Broken, r, kr);
    } else {
      ReadingCommas(r, kr, all);
    }
  }

  /** In the text of an accepted CREATE TABLE the commas of the list are one
      less than the columns, and one more with a key: those in names, texts,
      types and expressions are none. */
  lemma CommaCount(L: Lexis, e: Engine, c: CreateTable)
    requires L.Valid() && L.d == e.For() && Accepts(L, c)
    ensures var sql := CreateTableSQL(L, e, c);
            ListCommas(sql, Kinds(L, sql), 0) ==
            |c.columns| - if exists i :: 0 <= i < |c.columns| && c.columns[i].primaryKey then 0 else 1
  {
    hide ColumnDefSQL, KeyClause, KeyNames, KeyIndexes, ListCommas, ReadAll, Kinds, CreateTableSQL, Accepts;
    CreateTableReads(L, e, c);
    var sql := CreateTableSQL(L, e, c);
    ReadingCommas(sql, Kinds(L, sql), Items(Definitions(L, e, c)));
    KeyIndexesAre(c.columns);
    KeyNamesAre(c.columns);
    var at := KeyIndexes(c.columns);
    assert at != [] ==> at[0] in at;
  }

  /** The items name exactly the columns that were asked for, in order, and the
      key clause names none. */
  lemma ItemsNameColumns(L: Lexis, e: Engine, c: CreateTable, i: nat)
    requires L.Valid() && L.d == e.For() && Accepts(L, c)
    requires i < |Items(Definitions(L, e, c))|
    ensures ItemName(L, e, Items(Definitions(L, e, c))[i]) ==
            if i < |c.columns| then Some(c.columns[i].name) else None
  {
    hide Lead, Unescape, ColumnOutcome, NeedName, KeyNames;
    var defs := Definitions(L, e, c);
    var item := Items(defs)[i];
    if i < |c.columns| {
      var def := ColumnDefSQL(L, e, c.columns[i]);
      ColumnDefName(L, e, c.columns[i]);
      assert defs[i] == def;
      assert i > 0 ==> item[1..] == def;
    } else {
      var key := KeyClause(e, KeyNames(c.columns));
      KeyClauseLead(L, e, KeyNames(c.columns));
      assert item == " " + key && item[1..] == key;
    }
  }

  lemma KeyClauseLead(L: Lexis, e: Engine, names: seq<string>)
    requires L.Valid()
    ensures var s := KeyClause(e, names); s != [] && s[0] == 'P' && Lead(L, s).kind != QuotedIdent
  {
    hide QuoteAll;
    var s := KeyClause(e, names);
    assert s[0] == 'P' && 'P' in L.letter && 'P' !in L.space && 'P' !in L.digit;
  }

  /** schemaStatements for a CREATE TABLE: validated first, rendered after. */
  method CreateTableStatement(L: Lexis, e: Engine, c: CreateTable) returns (r: Outcome, sql: string)
    requires L.Valid() && L.d == e.For()
    ensures r == Pass <==> Accepts(L, c)
    ensures r == Pass ==> sql == CreateTableSQL(L, e, c)
    ensures r == Pass ==> ReadAll(Before, sql, Kinds(L, sql)) == After(Items(Definitions(L, e, c)))
  {
    hide Accepts, Definitions, CreateTableSQL, Items;
    sql := "";
    r := ValidateCreateTable(L, c);
    if r == Pass {
      assert c.columns != [] by { AcceptsSome(L, c); }
      sql := RenderCreateTable(L, e, c);
      CreateTableReads(L, e, c);
    }
  }

  lemma AcceptsSome(L: Lexis, c: CreateTable)
    requires Accepts(L, c)
    ensures c.columns != []
  {
  }

  // ---------- ADD COLUMN ----------

  function AddColumnSQL(L: Lexis, e: Engine, c: AddColumn): string {
    ("ALTER TABLE" + (" " + QualifiedTable(e, c.database, c.table))) +
    (" ADD COLUMN" + (" " + ColumnDefSQL(L, e, c.column)))
  }

  /** An accepted ADD COLUMN is one statement with one action: it balances, has
      no comment or semicolon, and no comma outside parentheses could start a
      second action. */
  lemma AddColumnReads(L: Lexis, e: Engine, c: AddColumn)
    requires L.Valid() && L.d == e.For() && ColumnOutcome(L, c.column) == Pass
    ensures Fragment(L, AddColumnSQL(L, e, c))
  {
    hide Lead, Settles, Nest, Fragment, ColumnDefSQL, QualifiedTable, ColumnOutcome, Kinds;
    var q, d := QualifiedTable(e, c.database, c.table), ColumnDefSQL(L, e, c.column);
    var alter, add := "ALTER TABLE", " ADD COLUMN";
    QualifiedFragment(L, e, c.database, c.table);
    ColumnFragment(L, e, c.column);
    WordsFragment(L, alter);
    WordsFragment(L, add);
    FragmentSpace(L, q);
    FragmentSpace(L, d);
    FragmentAppend(L, alter, " " + q);
    FragmentAppend(L, add, " " + d);
    FragmentAppend(L, alter + (" " + q), add + (" " + d));
  }
}
