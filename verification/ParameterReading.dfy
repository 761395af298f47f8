/** Reading a bound parameter back: which argument of a statement a marker in
    its text stands for. */
module ParameterReading {
  import opened Wrappers
  import opened Text
  import opened Literal
  import opened InsertReading
  import Placeholders

  /** The argument a marker stands for: PostgreSQL counts in the marker, the
      others by the markers before it. */
  function MarkerValue<T>(e: Engine, marker: string, args: seq<T>, before: nat): Option<T> {
    if e == EnginePostgres then
      if marker == "" || marker[0] != '$' then None
      else var n := DigitsValue(marker[1..]); if 1 <= n <= |args| then Some(args[n - 1]) else None
    else if marker == "?" && before < |args| then Some(args[before])
    else None
  }

  /** A marker ends at a space, a comma or a closing parenthesis. */
  function MarkerEnd(s: string): (n: nat)
    ensures n <= |s|
  {
    if s == "" || s[0] in " ,)" then 0 else 1 + MarkerEnd(s[1..])
  }

  /** The argument of the marker that s starts with, after `before` others. */
  function ReadParameter<T>(e: Engine, s: string, args: seq<T>, before: nat): Option<Found<T>> {
    var n := MarkerEnd(s);
    match MarkerValue(e, s[..n], args, before)
    case None => None
    case Some(v) => Some(Found(v, s[n..]))
  }

  lemma MarkerWord(e: Engine, n: nat)
    ensures var m := Placeholders.Marker(e, n); m != "" && forall i :: 0 <= i < |m| ==> m[i] !in " ,)"
  {
    DecimalChars(n);
  }

  /** Marker number k + 1 stands for argument k, the ones before it counted. */
  lemma MarkerStands<T>(e: Engine, args: seq<T>, k: nat)
    requires k < |args|
    ensures MarkerValue(e, Placeholders.Marker(e, k + 1), args, k) == Some(args[k])
  {
    DecimalValue(k + 1);
    hide Decimal, DigitsValue;
    assert ("$" + Decimal(k + 1))[1..] == Decimal(k + 1);
  }

  lemma {:induction false} MarkerEndOf(m: string, t: string)
    requires (forall i :: 0 <= i < |m| ==> m[i] !in " ,)") && (t != "" ==> t[0] in " ,)")
    ensures MarkerEnd(m + t) == |m|
  {
    if m == "" {
      assert m + t == t;
    } else {
      assert (m + t)[1..] == m[1..] + t;
      MarkerEndOf(m[1..], t);
    }
  }

  lemma ParameterOf<T>(e: Engine, args: seq<T>, k: nat, t: string)
    requires k < |args| && (t != "" ==> t[0] in " ,)")
    ensures ReadParameter(e, Placeholders.Marker(e, k + 1) + t, args, k) == Some(Found(args[k], t))
  {
    hide Placeholders.Marker, MarkerValue, MarkerEnd;
    var m := Placeholders.Marker(e, k + 1);
    MarkerWord(e, k + 1);
    MarkerEndOf(m, t);
    MarkerStands(e, args, k);
    assert (m + t)[..|m|] == m && (m + t)[|m|..] == t;
  }
}
