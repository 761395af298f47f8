/** ParseFilter (internal/db/filter.go): a typed fragment is taken apart into
    comparisons, or kept verbatim. The two regular expressions of the parser
    are matched by hand, with their backtracking. */
module FilterParse {
  import opened Wrappers
  import opened Text
  import opened Literal
  import opened Ddl
  import opened Filters
  import Placeholders

  /** \s of a regular expression. */
  const Blank: set<char> := {' ', '\t', '\n', '\U{000C}', '\r'}

  predicate BareStart(c: char) { c == '_' || 'a' <= c <= 'z' || 'A' <= c <= 'Z' }

  /** The characters a bare identifier may go on with. */
  const IdentBytes: set<char> := set c: char | IdentByte(c)

  function SkipBlank(s: string): (r: string)
    ensures |r| <= |s|
  {
    s[Run(Blank, s)..]
  }

  /** The longest identifier at the start: bare, or quoted with something in
      it. 0 when there is none. */
  function IdentLen(s: string): (n: nat)
    ensures n <= |s|
  {
    if s == [] then 0
    else if BareStart(s[0]) then Run(IdentBytes, s)
    else if s[0] == '"' || s[0] == '`' then
      match QuoteEnd(s, 1, s[0]) case Some(n) => if n > 2 then n else 0 case None => 0
    else 0
  }

  /** `null`, and nothing but blanks after it. */
  predicate NullWord(r: string) { HasPrefixFold(r, "NULL") && Run(Blank, r[4..]) == |r| - 4 }

  /** `is [not] null` to the end: Some(true) with the not. */
  function NullTail(r: string): Option<bool> {
    var a := SkipBlank(r);
    if !HasPrefixFold(a, "IS") || Run(Blank, a[2..]) == 0 then None
    else
      var b := SkipBlank(a[2..]);
      if HasPrefixFold(b, "NOT") && Run(Blank, b[3..]) > 0 && NullWord(SkipBlank(b[3..])) then Some(true)
      else if NullWord(b) then Some(false)
      else None
  }

  /** The longest identifier that leaves an `is [not] null`. A bare one may give
      characters back. */
  function NullFrom(t: string, n: nat): Option<(string, bool)>
    requires n <= |t|
  {
    if n == 0 then None
    else
      match NullTail(t[n..])
      case Some(negated) => Some((t[..n], negated))
      case None => if BareStart(t[0]) then NullFrom(t, n - 1) else None
  }

  /** nullRe. */
  function NullMatch(term: string): Option<(string, bool)> {
    var t := SkipBlank(term);
    NullFrom(t, IdentLen(t))
  }

  /** What follows the operator p, if there is something. */
  function AfterOp(r: string, p: string): Option<string> {
    if HasPrefixFold(r, p) && |r| > |p| then Some(r[|p|..]) else None
  }

  /** The first of the operators that r starts with, and what follows. */
  function FirstOp(r: string, ops: seq<string>): Option<(string, string)> {
    if ops == [] then None
    else
      match AfterOp(r, ops[0])
      case Some(rest) => Some((ops[0], rest))
      case None => FirstOp(r, ops[1..])
  }

  function NotLike(r: string): Option<(string, string)> {
    if HasPrefixFold(r, "NOT") && Run(Blank, r[3..]) > 0 then
      match AfterOp(SkipBlank(r[3..]), "LIKE")
      case Some(rest) => Some(("NOT LIKE", rest))
      case None => None
    else None
  }

  /** The operator after an identifier, in the order the expression tries them,
      and the text of the literal. */
  function OpTail(s: string): Option<(string, string)> {
    var r := SkipBlank(s);
    if FirstOp(r, ["=", "<>", "!=", ">=", "<=", ">", "<"]).Some? then FirstOp(r, ["=", "<>", "!=", ">=", "<=", ">", "<"])
    else if NotLike(r).Some? then NotLike(r)
    else FirstOp(r, ["LIKE", "ILIKE"])
  }

  function CompareFrom(t: string, n: nat): Option<(string, string, string)>
    requires n <= |t|
  {
    if n == 0 then None
    else
      match OpTail(t[n..])
      case Some(m) => Some((t[..n], m.0, m.1))
      case None => if BareStart(t[0]) then CompareFrom(t, n - 1) else None
  }

  /** comparisonRe: identifier, operator, literal. */
  function CompareMatch(term: string): Option<(string, string, string)> {
    var t := SkipBlank(term);
    CompareFrom(t, IdentLen(t))
  }

  /** strings.ReplaceAll(body, "''", ""). */
  function Strip(b: string): string {
    if b == [] then []
    else if |b| > 1 && b[0] == '\'' && b[1] == '\'' then Strip(b[2..])
    else [b[0]] + Strip(b[1..])
  }

  function ParseLiteral(env: Env, lit: string): Option<Arg> {
    var s := Trim(env.space, lit);
    if s == [] then None
    else if |s| >= 2 && s[0] == '\'' && s[|s| - 1] == '\'' then
      if '\'' in Strip(Inside(s)) then None else Some(Text(Unescape(Inside(s), '\'', false)))
    else if Lower(s) == "true" then Some(Bool(true))
    else if Lower(s) == "false" then Some(Bool(false))
    else if ParseInt(s).Some? then Some(Int(ParseInt(s).value))
    else if NumberLiteral(s) then ToFloat(env, s)
    else None
  }

  /** unquoteIdent. */
  function UnquoteIdent(s: string): string {
    if |s| >= 2 && (s[0] == '"' || s[0] == '`') && s[|s| - 1] == s[0] then Unescape(Inside(s), s[0], false) else s
  }

  /** A parsed comparison and its value, if it has one. */
  datatype Term = Term(expr: string, value: Option<Arg>)

  function ParseTerm(env: Env, e: Engine, term: string, n: nat): Option<Term> {
    match NullMatch(term)
    case Some(m) =>
      Some(Term(QuoteIdent(e, UnquoteIdent(m.0)) + (" " + if m.1 then "IS NOT NULL" else "IS NULL"), None))
    case None =>
      match CompareMatch(term)
      case None => None
      case Some(m) =>
        match ParseLiteral(env, m.2)
        case None => None
        case Some(v) =>
          Some(Term(QuoteIdent(e, UnquoteIdent(m.0)) + (" " + (m.1 + (" " + Placeholders.Marker(e, n)))), Some(v)))
  }

  datatype Parsed = Parsed(exprs: seq<string>, args: seq<Arg>)

  /** The terms, one after the other. */
  function ParseTerms(env: Env, e: Engine, terms: seq<string>): Option<Parsed> {
    if terms == [] then Some(Parsed([], []))
    else
      var n := |terms| - 1;
      match ParseTerms(env, e, terms[..n])
      case None => None
      case Some(p) =>
        match ParseTerm(env, e, terms[n], |p.args| + 1)
        case None => None
        case Some(t) => Some(Parsed(p.exprs + [t.expr], p.args + match t.value case Some(v) => [v] case None => []))
  }

  /** The fragment without a leading WHERE. */
  function Fragment(space: set<char>, raw: string): string {
    var s := Trim(space, raw);
    if KeywordAt(s, 0, "WHERE") then Trim(space, s[5..]) else s
  }

  function Parse(env: Env, e: Engine, raw: string): Option<Filter> {
    if Trim(env.space, raw) == [] then None
    else
      var s := Fragment(env.space, raw);
      var verbatim := Filter(s, [], raw, true);
      match SplitTerms(env.space, s)
      case None => Some(verbatim)
      case Some(terms) =>
        match ParseTerms(env, e, terms)
        case None => Some(verbatim)
        case Some(p) => Some(Filter(Join(p.exprs, " AND "), p.args, raw, false))
  }

  /** ParseFilter. */
  method ParseFilter(env: Env, e: Engine, raw: string) returns (r: Option<Filter>)
    ensures r == Parse(env, e, raw)
  {
    hide Trim, SplitTerms, ParseTerm, KeywordAt, Join;
    var s := Trim(env.space, raw);
    if s == [] {
      return None;
    }
    if KeywordAt(s, 0, "WHERE") {
      KeywordFits(s, 0, "WHERE");
      s := Trim(env.space, s[5..]);
    }
    var verbatim := Filter(s, [], raw, true);
    var terms := SplitAnd(env.space, s);
    if terms == None {
      return Some(verbatim);
    }
    var exprs: seq<string> := [];
    var args: seq<Arg> := [];
    var ts := terms.value;
    ghost var whole := ParseTerms(env, e, ts);
    for i := 0 to |ts|
      invariant ParseTerms(env, e, ts[..i]) == Some(Parsed(exprs, args))
    {
      assert ts[..i + 1][..i] == ts[..i];
      var t := ParseTerm(env, e, ts[i], |args| + 1);
      if t == None {
        ParseStops(env, e, ts, i + 1);
        return Some(verbatim);
      }
      exprs := exprs + [t.value.expr];
      if t.value.value.Some? {
        args := args + [t.value.value.value];
      } else {
        assert args + [] == args;
      }
    }
    assert ts[..|ts|] == ts;
    return Some(Filter(Join(exprs, " AND "), args, raw, false));
  }

  lemma {:induction false} ParseStops(env: Env, e: Engine, ts: seq<string>, i: nat)
    requires i <= |ts| && ParseTerms(env, e, ts[..i]) == None
    ensures ParseTerms(env, e, ts) == None
    decreases |ts| - i
  {
    hide ParseTerm;
    if i < |ts| {
      assert ts[..i + 1][..i] == ts[..i];
      ParseStops(env, e, ts, i + 1);
    } else {
      assert ts[..i] == ts;
    }
  }
}
