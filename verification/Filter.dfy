/** The quick filter (internal/db/filter.go): structured conditions become a
    parameterized filter and a readable text; the text, parsed back, gives the
    same filter. */
module Filters {
  import opened Wrappers
  import opened Text
  import opened Literal
  import opened Ddl
  import Placeholders

  // ---------- conditions ----------

  datatype Op = Eq | Ne | Lt | Gt | Le | Ge | Like | IsNull | IsNotNull {
    function Spelling(): string {
      match this
      case Eq => "="
      case Ne => "!="
      case Lt => "<"
      case Gt => ">"
      case Le => "<="
      case Ge => ">="
      case Like => "LIKE"
      case IsNull => "IS NULL"
      case IsNotNull => "IS NOT NULL"
    }

    predicate NeedsValue() { this != IsNull && this != IsNotNull }
  }

  datatype Cond = Cond(column: string, op: Op, value: string, typ: string)

  /** What a value travels as; a float by its bits. */
  datatype Arg = Text(text: string) | Int(i: int) | Float(bits: int) | Bool(b: bool)

  datatype Class = UnknownClass | IntClass | FloatClass | BoolClass | TextClass

  /** What the model takes from outside: Unicode's spaces, the table of type
      names, and strconv.ParseFloat. */
  datatype Env = Env(space: set<char>, types: map<string, Class>, parseFloat: string -> Option<int>) {
    ghost predicate Valid() {
      && (forall c: char | c < '\U{0080}' :: c in space <==> c == ' ' || '\t' <= c <= '\r')
      && (forall s: string :: parseFloat(s).Some? ==> FloatShape(s))
    }
  }

  predicate FloatChar(c: char) {
    '0' <= c <= '9' || c in "+-._abcdefABCDEFxXpPiInNtTyY"
  }

  /** What the texts that ParseFloat takes have in common: decimal, hexadecimal,
      inf, infinity and nan. */
  predicate FloatShape(s: string) {
    && s != [] && (forall i :: 0 <= i < |s| ==> FloatChar(s[i]))
    && (forall i :: 0 <= i < |s| ==> !HasPrefixFold(s[i..], "AND"))
  }

  datatype Filter = Filter(expr: string, args: seq<Arg>, raw: string, verbatim: bool)

  // ---------- numbers ----------

  predicate IntText(s: string) { Digits(SkipSign(s)) }

  const MIN_INT64: int := -0x8000_0000_0000_0000
  const MAX_INT64: int := 0x7fff_ffff_ffff_ffff

  /** strconv.ParseInt(s, 10, 64). */
  function ParseInt(s: string): Option<int> {
    if !IntText(s) then None
    else
      var n := DigitsValue(SkipSign(s));
      var v := if s[0] == '-' then -n else n;
      if MIN_INT64 <= v <= MAX_INT64 then Some(v) else None
  }

  /** strconv.ParseBool. */
  function ParseBool(s: string): Option<bool> {
    if s in ["1", "t", "T", "TRUE", "true", "True"] then Some(true)
    else if s in ["0", "f", "F", "FALSE", "false", "False"] then Some(false)
    else None
  }

  // ---------- what a value binds as ----------

  function CutAt(t: string): string {
    if t == [] || t[0] in "( \t" then [] else [t[0]] + CutAt(t[1..])
  }

  function TypeClass(env: Env, t: string): Class {
    var base := CutAt(Lower(Trim(env.space, t)));
    if base != "" && base in env.types then env.types[base] else UnknownClass
  }

  function ToFloat(env: Env, s: string): Option<Arg> {
    match env.parseFloat(s)
    case Some(f) => Some(Float(f))
    case None => None
  }

  /** bindValue: None is an error for the form to show. */
  function BindValue(env: Env, c: Cond): Option<Arg> {
    var v := Trim(env.space, c.value);
    if c.op == Like then Some(Text(c.value))
    else
      match TypeClass(env, c.typ)
      case IntClass => (match ParseInt(v) case Some(n) => Some(Int(n)) case None => ToFloat(env, v))
      case FloatClass => ToFloat(env, v)
      case BoolClass => (match ParseBool(v) case Some(b) => Some(Bool(b)) case None => None)
      case TextClass => Some(Text(c.value))
      case UnknownClass =>
        if ParseInt(v).Some? then Some(Int(ParseInt(v).value))
        else if NumberLiteral(v) && ToFloat(env, v).Some? then ToFloat(env, v)
        else Some(Text(c.value))
  }

  /** FilterCond.String: text is quoted, everything else stands as typed. */
  function Shown(env: Env, c: Cond): string {
    match BindValue(env, c)
    case Some(Int(_)) => Trim(env.space, c.value)
    case Some(Float(_)) => Trim(env.space, c.value)
    case Some(Bool(_)) => Trim(env.space, c.value)
    case _ => "'" + Double(c.value, '\'') + "'"
  }

  function Raw(env: Env, c: Cond): string {
    c.column + (" " + (c.op.Spelling() + if c.op.NeedsValue() then " " + Shown(env, c) else ""))
  }

  /** Why conditions make no filter. */
  datatype Refusal = NoColumn | BadValue

  datatype Build = NoFilter | Refused(why: Refusal) | Built(filter: Filter)

  function Refuses(env: Env, c: Cond): Option<Refusal> {
    if Trim(env.space, c.column) == [] then Some(NoColumn)
    else if c.op.NeedsValue() && BindValue(env, c) == None then Some(BadValue)
    else None
  }

  function Expr(e: Engine, c: Cond, n: nat): string {
    QuoteIdent(e, c.column) + (" " + (c.op.Spelling() + if c.op.NeedsValue() then " " + Placeholders.Marker(e, n) else ""))
  }

  /** The values of conditions that are not refused, in order. */
  function Args(env: Env, conds: seq<Cond>): seq<Arg> {
    if conds == [] then []
    else
      var n := |conds| - 1;
      Args(env, conds[..n]) +
      if conds[n].op.NeedsValue() && BindValue(env, conds[n]).Some? then [BindValue(env, conds[n]).value] else []
  }

  function Exprs(env: Env, e: Engine, conds: seq<Cond>): (r: seq<string>)
    ensures |r| == |conds|
  {
    seq(|conds|, i requires 0 <= i < |conds| => Expr(e, conds[i], |Args(env, conds[..i])| + 1))
  }

  function Raws(env: Env, conds: seq<Cond>): (r: seq<string>)
    ensures |r| == |conds|
  {
    seq(|conds|, i requires 0 <= i < |conds| => Raw(env, conds[i]))
  }

  predicate Accepted(env: Env, conds: seq<Cond>) {
    forall i :: 0 <= i < |conds| ==> Refuses(env, conds[i]) == None
  }

  function Whole(env: Env, e: Engine, conds: seq<Cond>): Filter {
    Filter(Join(Exprs(env, e, conds), " AND "), Args(env, conds), Join(Raws(env, conds), " AND "), false)
  }

  /** BuildFilter. */
  method BuildFilter(env: Env, e: Engine, conds: seq<Cond>) returns (r: Build)
    ensures conds == [] ==> r == NoFilter
    ensures conds != [] && Accepted(env, conds) ==> r == Built(Whole(env, e, conds))
    ensures !Accepted(env, conds) ==>
              exists i :: 0 <= i < |conds| && Refuses(env, conds[i]).Some? && r == Refused(Refuses(env, conds[i]).value)
                          && Accepted(env, conds[..i])
  {
    hide BindValue, Raw, QuoteIdent, Trim, Placeholders.Marker, Args, Exprs, Raws, Op.Spelling;
    if |conds| == 0 {
      return NoFilter;
    }
    var exprs: seq<string> := [];
    var raws: seq<string> := [];
    var args: seq<Arg> := [];
    NothingBuilt(env, e);
    assert conds[..0] == [];
    for i := 0 to |conds|
      invariant Accepted(env, conds[..i])
      invariant exprs == Exprs(env, e, conds[..i]) && raws == Raws(env, conds[..i]) && args == Args(env, conds[..i])
    {
      var c := conds[i];
      if Trim(env.space, c.column) == [] {
        return Refused(NoColumn);
      }
      var expr := QuoteIdent(e, c.column) + (" " + c.op.Spelling());
      OneMore(env, e, conds, i);
      if c.op.NeedsValue() {
        var v := BindValue(env, c);
        if v == None {
          return Refused(BadValue);
        }
        args := args + [v.value];
        var mark := Placeholders.Marker(e, |args|);
        Regroup(QuoteIdent(e, c.column), c.op.Spelling(), mark);
        expr := expr + (" " + mark);
      } else {
        assert c.op.Spelling() + "" == c.op.Spelling();
      }
      exprs := exprs + [expr];
      raws := raws + [Raw(env, c)];
    }
    assert conds[..|conds|] == conds;
    return Built(Filter(Join(exprs, " AND "), args, Join(raws, " AND "), false));
  }

  lemma NothingBuilt(env: Env, e: Engine)
    ensures Exprs(env, e, []) == [] && Raws(env, []) == [] && Args(env, []) == []
  {
  }

  lemma OneMore(env: Env, e: Engine, conds: seq<Cond>, i: nat)
    requires i < |conds|
    ensures var some, more, c := conds[..i], conds[..i + 1], conds[i];
            && Exprs(env, e, more) == Exprs(env, e, some) + [Expr(e, c, |Args(env, some)| + 1)]
            && Raws(env, more) == Raws(env, some) + [Raw(env, c)]
            && Args(env, more) == Args(env, some) +
                                  if c.op.NeedsValue() && BindValue(env, c).Some? then [BindValue(env, c).value] else []
  {
    hide BindValue, Raw, Expr, Exprs;
    assert conds[..i + 1][..i] == conds[..i];
    ExprsMore(env, e, conds, i);
  }

  lemma ExprsMore(env: Env, e: Engine, conds: seq<Cond>, i: nat)
    requires i < |conds|
    ensures Exprs(env, e, conds[..i + 1]) == Exprs(env, e, conds[..i]) + [Expr(e, conds[i], |Args(env, conds[..i])| + 1)]
  {
    hide BindValue, Raw, Expr, Args;
    var some, more := conds[..i], conds[..i + 1];
    assert more[..i] == some;
    forall k | 0 <= k < i
      ensures Exprs(env, e, more)[k] == Exprs(env, e, some)[k]
    {
      assert more[..k] == some[..k];
    }
  }

  lemma Regroup(q: string, op: string, mark: string)
    ensures (q + (" " + op)) + (" " + mark) == q + (" " + (op + (" " + mark)))
  {
  }

  // ---------- splitting at AND ----------

  predicate IdentByte(c: char) {
    c == '_' || c == '$' || 'a' <= c <= 'z' || 'A' <= c <= 'Z' || '0' <= c <= '9'
  }

  /** cutKeywordAt: the word, in any case, at i and on a word boundary. */
  predicate KeywordAt(s: string, i: nat, kw: string)
    requires i <= |s|
  {
    && HasPrefixFold(s[i..], kw)
    && (i > 0 ==> !IdentByte(s[i - 1]))
    && (i + |kw| < |s| ==> !IdentByte(s[i + |kw|]))
  }

  predicate IsQuote(c: char) { c == '\'' || c == '"' || c == '`' }

  /** Where the quoted text that opened before i ends: past its closing quote. */
  function QuoteEnd(s: string, i: nat, q: char): (r: Option<nat>)
    requires i <= |s|
    ensures r.Some? ==> i < r.value <= |s|
    decreases |s| - i
  {
    if i == |s| then None
    else if s[i] != q then QuoteEnd(s, i + 1, q)
    else if i + 1 < |s| && s[i + 1] == q then QuoteEnd(s, i + 2, q)
    else Some(i + 1)
  }

  /** The terms from i on; cur is the term being read. */
  function Split(s: string, i: nat, cur: string): Option<seq<string>>
    requires i <= |s|
    decreases |s| - i
  {
    if i == |s| then Some([cur])
    else if IsQuote(s[i]) then
      match QuoteEnd(s, i + 1, s[i])
      case None => None
      case Some(n) => Split(s, n, cur + s[i..n])
    else if s[i] == '(' || s[i] == ')' || s[i] == ';' || KeywordAt(s, i, "OR") then None
    else if KeywordAt(s, i, "AND") then
      match Split(s, i + 3, "")
      case None => None
      case Some(terms) => Some([cur] + terms)
    else Split(s, i + 1, cur + [s[i]])
  }

  predicate NoBlank(space: set<char>, terms: seq<string>) {
    forall i :: 0 <= i < |terms| ==> Trim(space, terms[i]) != []
  }

  function SplitTerms(space: set<char>, s: string): Option<seq<string>> {
    match Split(s, 0, "")
    case None => None
    case Some(terms) => if NoBlank(space, terms) then Some(terms) else None
  }

  /** splitAnd. */
  method SplitAnd(space: set<char>, s: string) returns (r: Option<seq<string>>)
    ensures r == SplitTerms(space, s)
  {
    hide Trim, KeywordAt, NoBlank;
    var terms: seq<string> := [];
    var cur := "";
    var i: nat := 0;
    var quote: Option<char> := None;
    ghost var all := Split(s, 0, "");
    assert all.Some? ==> [] + all.value == all.value;
    while i < |s|
      invariant i <= |s|
      invariant quote == None ==> all == After(terms, Split(s, i, cur))
      invariant quote.Some? ==> all == match QuoteEnd(s, i, quote.value) {
                                         case None => None
                                         case Some(n) => After(terms, Split(s, n, cur + s[i..n]))
                                       }
      decreases |s| - i
    {
      var c := s[i];
      if quote.Some? {
        var q := quote.value;
        if c == q {
          if i + 1 < |s| && s[i + 1] == q {
            QuoteSlice(s, i, i + 2, q, cur);
            cur := cur + [c, q];
            i := i + 2;
            continue;
          }
          assert s[i..i + 1] == [c];
          quote := None;
        } else {
          QuoteSlice(s, i, i + 1, q, cur);
        }
        cur := cur + [c];
        i := i + 1;
        continue;
      }
      if IsQuote(c) {
        quote := Some(c);
        QuoteSlice(s, i, i + 1, c, cur);
        cur := cur + [c];
        i := i + 1;
        continue;
      }
      if c == '(' || c == ')' || c == ';' {
        return None;
      }
      if KeywordAt(s, i, "OR") {
        return None;
      }
      if KeywordAt(s, i, "AND") {
        KeywordFits(s, i, "AND");
        AfterCons(terms, cur, Split(s, i + 3, ""));
        terms := terms + [cur];
        cur := "";
        i := i + 3;
        continue;
      }
      cur := cur + [c];
      i := i + 1;
    }
    if quote.Some? {
      return None;
    }
    terms := terms + [cur];
    var full := AllFull(space, terms);
    return if full then Some(terms) else None;
  }

  /** The last loop: no term is blank. */
  method AllFull(space: set<char>, terms: seq<string>) returns (ok: bool)
    ensures ok <==> NoBlank(space, terms)
  {
    hide Trim;
    for k := 0 to |terms|
      invariant forall j :: 0 <= j < k ==> Trim(space, terms[j]) != []
    {
      if Trim(space, terms[k]) == [] {
        return false;
      }
    }
    return true;
  }

  function After(terms: seq<string>, rest: Option<seq<string>>): Option<seq<string>> {
    match rest
    case None => None
    case Some(more) => Some(terms + more)
  }

  lemma AfterCons(terms: seq<string>, cur: string, rest: Option<seq<string>>)
    ensures After(terms, match rest case None => None case Some(more) => Some([cur] + more)) == After(terms + [cur], rest)
  {
    if rest.Some? {
      assert terms + ([cur] + rest.value) == (terms + [cur]) + rest.value;
    }
  }

  lemma KeywordFits(s: string, i: nat, kw: string)
    requires i <= |s| && KeywordAt(s, i, kw)
    ensures i + |kw| <= |s|
  {
  }

  lemma QuoteSlice(s: string, i: nat, j: nat, q: char, cur: string)
    requires i < j <= |s|
    ensures var end := QuoteEnd(s, j, q); end.Some? ==> cur + s[i..end.value] == (cur + s[i..j]) + s[j..end.value]
    ensures j == i + 1 ==> s[i..j] == [s[i]]
    ensures j == i + 2 ==> s[i..j] == [s[i], s[i + 1]]
  {
    var end := QuoteEnd(s, j, q);
    if end.Some? { assert s[i..end.value] == s[i..j] + s[j..end.value]; }
  }
}
