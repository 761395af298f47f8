/** What a filter selects. The text of a built filter is read back as a chain of
    comparisons, each with its column, its operator and the parameter its marker
    stands for, and is true of a row exactly when the conditions are; and the
    operators of a typed filter are kept. */
module FilterMeaning {
  import opened Wrappers
  import opened Text
  import opened Literal
  import opened Filters
  import opened InsertReading
  import opened ParameterReading
  import Placeholders

  // ---------- truth ----------

  /** How a database compares two values, and matches one against a pattern. */
  datatype Compare = Compare(same: (Arg, Arg) -> bool, less: (Arg, Arg) -> bool,
                             like: (Arg, Arg) -> bool, likeAnyCase: (Arg, Arg) -> bool)

  /** A row by its columns; None is NULL. */
  type Row = string -> Option<Arg>

  /** SQL's truth; None is unknown. */
  type Truth = Option<bool>

  function Both(a: Truth, b: Truth): Truth {
    if a == Some(false) || b == Some(false) then Some(false) else if a == None || b == None then None else Some(true)
  }

  /** What SQL makes of an operator between a cell and a value, if it is one. */
  function SymbolTruth(K: Compare, symbol: string, cell: Option<Arg>, v: Option<Arg>): Option<Truth> {
    if symbol == "IS NULL" then Some(Some(cell == None))
    else if symbol == "IS NOT NULL" then Some(Some(cell != None))
    else if symbol !in ["=", "<>", "!=", "<", ">", "<=", ">=", "LIKE", "NOT LIKE", "ILIKE"] || v == None then None
    else if cell == None then Some(None)
    else
      var x, y := cell.value, v.value;
      Some(Some(if symbol == "=" then K.same(x, y)
                else if symbol == "<>" || symbol == "!=" then !K.same(x, y)
                else if symbol == "<" then K.less(x, y)
                else if symbol == ">" then K.less(y, x)
                else if symbol == "<=" then K.less(x, y) || K.same(x, y)
                else if symbol == ">=" then K.less(y, x) || K.same(x, y)
                else if symbol == "LIKE" then K.like(x, y)
                else if symbol == "NOT LIKE" then !K.like(x, y)
                else K.likeAnyCase(x, y)))
  }

  /** What a condition asks of a cell: a comparison with NULL is unknown. */
  function Asked(K: Compare, op: Op, cell: Option<Arg>, v: Option<Arg>): Truth {
    match op
    case IsNull => Some(cell == None)
    case IsNotNull => Some(cell != None)
    case _ =>
      if cell == None || v == None then None
      else
        var x, y := cell.value, v.value;
        match op
        case Eq => Some(K.same(x, y))
        case Ne => Some(!K.same(x, y))
        case Lt => Some(K.less(x, y))
        case Gt => Some(K.less(y, x))
        case Le => Some(K.less(x, y) || K.same(x, y))
        case Ge => Some(K.less(y, x) || K.same(x, y))
        case _ => Some(K.like(x, y))
  }

  /** All the conditions, each on its own column. */
  function CondsTruth(env: Env, K: Compare, conds: seq<Cond>, row: Row): Truth {
    if conds == [] then Some(true)
    else
      Both(Asked(K, conds[0].op, row(conds[0].column), BindValue(env, conds[0])), CondsTruth(env, K, conds[1..], row))
  }

  // ---------- the reader ----------

  datatype Comparison = Comparison(column: string, symbol: string, marker: string)

  predicate SymbolThere(s: string, p: string) { p <= s && (|s| > |p| ==> s[|p|] == ' ') }

  /** The operator that s starts with, up to a space or the end. */
  function ReadSymbol(s: string): string {
    if SymbolThere(s, "IS NULL") then "IS NULL"
    else if SymbolThere(s, "IS NOT NULL") then "IS NOT NULL"
    else if SymbolThere(s, "NOT LIKE") then "NOT LIKE"
    else s[..IndexOrEnd(s, ' ')]
  }

  function ReadComparison(e: Engine, s: string): Option<Found<Comparison>> {
    match ReadName(e, s)
    case None => None
    case Some(Found(column, r)) =>
      match Skip(r, " ")
      case None => None
      case Some(t) => ReadOperand(column, ReadSymbol(t), t)
  }

  function ReadOperand(column: string, symbol: string, t: string): Option<Found<Comparison>> {
    match Skip(t, symbol)
    case None => None
    case Some(u) =>
      if symbol == "IS NULL" || symbol == "IS NOT NULL" then Some(Found(Comparison(column, symbol, ""), u))
      else
        match Skip(u, " ")
        case None => None
        case Some(w) =>
          var n := IndexOrEnd(w, ' ');
          Some(Found(Comparison(column, symbol, w[..n]), w[n..]))
  }

  /** A chain of at most n + 1 comparisons on a row, with `before` markers read
      already. */
  function ExprTruth(K: Compare, e: Engine, s: string, args: seq<Arg>, before: nat, row: Row, n: nat): Option<Truth>
    decreases n
  {
    match ReadComparison(e, s)
    case None => None
    case Some(Found(c, r)) =>
      match SymbolTruth(K, c.symbol, row(c.column), MarkerValue(e, c.marker, args, before))
      case None => None
      case Some(t) =>
        if r == "" then Some(t)
        else if n == 0 || !(" AND " <= r) then None
        else
          match ExprTruth(K, e, r[5..], args, if c.marker == "" then before else before + 1, row, n - 1)
          case None => None
          case Some(u) => Some(Both(t, u))
  }

  // ---------- a built filter ----------

  /** The operator of a condition is read as it is spelled, and means what the
      condition asks. */
  lemma SpellingMeans(K: Compare, op: Op, cell: Option<Arg>, v: Option<Arg>)
    requires op.NeedsValue() ==> v.Some?
    ensures SymbolTruth(K, op.Spelling(), cell, v) == Some(Asked(K, op, cell, v))
  {
  }

  lemma SpellingRead(op: Op, u: string)
    requires if op.NeedsValue() then u != "" && u[0] == ' ' else u != "" ==> u[0] == ' '
    ensures ReadSymbol(op.Spelling() + u) == op.Spelling()
    ensures op.NeedsValue() <==> op.Spelling() != "IS NULL" && op.Spelling() != "IS NOT NULL"
  {
    var p, s := op.Spelling(), op.Spelling() + u;
    assert |p| < |s| ==> s[|p|] == u[0];
    if op.NeedsValue() {
      assert p[0] != 'I' && p[0] != 'N' && s[0] == p[0];
      IndexOrEndUnique(s, ' ', |p|);
      assert s[..|p|] == p;
    } else {
      assert p <= s;
      assert op.IsNotNull? ==> s[3] == 'N' && s[4] == 'O';
    }
  }

  lemma ComparisonRead(e: Engine, c: Cond, n: nat, r: string)
    requires r != "" ==> r[0] == ' '
    ensures ReadComparison(e, Expr(e, c, n) + r) ==
            Some(Found(Comparison(c.column, c.op.Spelling(),
                                  if c.op.NeedsValue() then Placeholders.Marker(e, n) else ""), r))
  {
    hide QuoteIdent, ReadName, Op.Spelling, ReadSymbol, Placeholders.Marker;
    var p, m := c.op.Spelling(), Placeholders.Marker(e, n);
    var u := (if c.op.NeedsValue() then " " + m else "") + r;
    var t := p + u;
    ExprParts(QuoteIdent(e, c.column), p, if c.op.NeedsValue() then " " + m else "", r);
    NameOf(e, c.column, " " + t);
    SkipOf(" ", t);
    SpellingRead(c.op, u);
    SkipOf(p, u);
    if c.op.NeedsValue() {
      assert u == " " + (m + r);
      SkipOf(" ", m + r);
      MarkerWord(e, n);
      IndexOrEndUnique(m + r, ' ', |m|);
      assert (m + r)[..|m|] == m && (m + r)[|m|..] == r;
    } else {
      assert u == r;
    }
  }

  lemma ExprParts(q: string, p: string, m: string, r: string)
    ensures (q + (" " + (p + m))) + r == q + (" " + (p + (m + r)))
  {
  }

  lemma {:induction false} ArgsGrow(env: Env, conds: seq<Cond>, i: nat)
    requires i <= |conds|
    ensures Args(env, conds[..i]) <= Args(env, conds)
    decreases |conds| - i
  {
    hide BindValue, Args;
    if i == |conds| {
      assert conds[..i] == conds;
    } else {
      OneMore(env, EngineSQLite, conds, i);
      ArgsGrow(env, conds, i + 1);
    }
  }

  /** A condition that compares takes the argument after those before it. */
  lemma ArgAt(env: Env, conds: seq<Cond>, i: nat)
    requires Accepted(env, conds) && i < |conds| && conds[i].op.NeedsValue()
    ensures var k := |Args(env, conds[..i])|;
            && k < |Args(env, conds)| && BindValue(env, conds[i]) == Some(Args(env, conds)[k])
            && |Args(env, conds[..i + 1])| == k + 1
  {
    hide BindValue, Args;
    OneMore(env, EngineSQLite, conds, i);
    ArgsGrow(env, conds, i + 1);
    assert Refuses(env, conds[i]) == None;
  }

  /** The first comparison of a chain, and the rest of it. */
  lemma ChainStep(K: Compare, e: Engine, env: Env, c: Cond, args: seq<Arg>, k: nat, row: Row, r: string, n: nat)
    requires c.op.NeedsValue() ==> k < |args| && BindValue(env, c) == Some(args[k])
    requires r != "" ==> " AND " <= r && n > 0
    ensures var t := Asked(K, c.op, row(c.column), BindValue(env, c));
            ExprTruth(K, e, Expr(e, c, k + 1) + r, args, k, row, n) ==
            if r == "" then Some(t)
            else match ExprTruth(K, e, r[5..], args, if c.op.NeedsValue() then k + 1 else k, row, n - 1) {
                   case None => None
                   case Some(u) => Some(Both(t, u))
                 }
  {
    hide ReadComparison, SymbolTruth, Asked, Op.Spelling, Expr, BindValue, MarkerValue, Placeholders.Marker;
    ComparisonRead(e, c, k + 1, r);
    if c.op.NeedsValue() {
      MarkerStands(e, args, k);
      MarkerWord(e, k + 1);
      SpellingMeans(K, c.op, row(c.column), BindValue(env, c));
    } else {
      NullTest(K, c.op, row(c.column), MarkerValue(e, "", args, k), BindValue(env, c));
    }
  }

  lemma NullTest(K: Compare, op: Op, cell: Option<Arg>, v: Option<Arg>, w: Option<Arg>)
    requires !op.NeedsValue()
    ensures SymbolTruth(K, op.Spelling(), cell, v) == Some(Asked(K, op, cell, w))
  {
  }

  lemma BothTrue(t: Truth)
    ensures Both(t, Some(true)) == t
  {
    match t
    case None =>
    case Some(b) =>
  }

  lemma CondsStep(env: Env, K: Compare, conds: seq<Cond>, row: Row, i: nat)
    requires i < |conds|
    ensures var c := conds[i];
            CondsTruth(env, K, conds[i..], row) ==
            Both(Asked(K, c.op, row(c.column), BindValue(env, c)), CondsTruth(env, K, conds[i + 1..], row))
    ensures i + 1 == |conds| ==> CondsTruth(env, K, conds[i + 1..], row) == Some(true)
  {
    hide Asked, BindValue, Both;
    assert conds[i..][0] == conds[i] && conds[i..][1..] == conds[i + 1..];
  }

  lemma ExprsStep(env: Env, e: Engine, conds: seq<Cond>, i: nat)
    requires i < |conds|
    ensures var all, r := Exprs(env, e, conds), Join(Exprs(env, e, conds)[i + 1..], " AND ");
            Join(all[i..], " AND ") == Expr(e, conds[i], |Args(env, conds[..i])| + 1) +
                                       if i + 1 == |conds| then "" else " AND " + r
  {
    hide Args, Expr, Join;
    var all := Exprs(env, e, conds);
    assert all[i..] == [all[i]] + all[i + 1..];
    JoinFront(all[i], all[i + 1..], " AND ");
    if i + 1 == |conds| {
      assert all[i + 1..] == [] && all[i] + "" == all[i];
    }
  }

  /** The chain from condition i on. */
  lemma {:induction false} ChainMeans(env: Env, K: Compare, e: Engine, conds: seq<Cond>, row: Row, i: nat)
    requires Accepted(env, conds) && i < |conds|
    ensures ExprTruth(K, e, Join(Exprs(env, e, conds)[i..], " AND "), Args(env, conds), |Args(env, conds[..i])|, row,
                      |conds| - 1 - i) ==
            Some(CondsTruth(env, K, conds[i..], row))
    decreases |conds| - i
  {
    hide BindValue, Args, Expr, Exprs, ExprTruth, Asked, Join, Both, CondsTruth;
    var args, c, k := Args(env, conds), conds[i], |Args(env, conds[..i])|;
    var last := i + 1 == |conds|;
    var rest := Join(Exprs(env, e, conds)[i + 1..], " AND ");
    CondsStep(env, K, conds, row, i);
    ExprsStep(env, e, conds, i);
    if c.op.NeedsValue() {
      ArgAt(env, conds, i);
    } else {
      OneMore(env, e, conds, i);
    }
    BothTrue(Asked(K, c.op, row(c.column), BindValue(env, c)));
    ChainStep(K, e, env, c, args, k, row, if last then "" else " AND " + rest, |conds| - 1 - i);
    if !last {
      assert (" AND " + rest)[5..] == rest;
      ChainMeans(env, K, e, conds, row, i + 1);
    }
  }

  /** A built filter is true of exactly the rows that satisfy its conditions,
      false and unknown of the same rows too: its text, read back with its
      arguments, compares each condition's column with each condition's value. */
  lemma FilterMeans(env: Env, K: Compare, e: Engine, conds: seq<Cond>, row: Row)
    requires Accepted(env, conds) && conds != []
    ensures var f := Whole(env, e, conds);
            ExprTruth(K, e, f.expr, f.args, 0, row, |conds| - 1) == Some(CondsTruth(env, K, conds, row))
  {
    hide ExprTruth, Join, CondsTruth, Expr, Exprs, Args;
    NothingBuilt(env, e);
    ChainMeans(env, K, e, conds, row, 0);
    assert conds[..0] == [] && conds[0..] == conds && Exprs(env, e, conds)[0..] == Exprs(env, e, conds);
  }
}
