/** What an ALTER COLUMN asks for, said of the request alone: which aspects of
    the column it changes, when there is something to do, and the column that
    has to come out. */
module AlterRequests {
  import opened Wrappers
  import opened Text
  import opened Sqlhl
  import opened Literal
  import opened Ddl
  import opened AlterColumns
  import opened RequestReading

  /** The same letter, in one case or the other. */
  predicate SameLetter(a: char, b: char) {
    a == b || ('A' <= a <= 'Z' && b as int == a as int + 32) || ('A' <= b <= 'Z' && a as int == b as int + 32)
  }

  predicate SameWords(a: string, b: string) {
    |a| == |b| && forall i :: 0 <= i < |a| ==> SameLetter(a[i], b[i])
  }

  // ---------- what is asked ----------

  function AskedName(L: Lexis, c: AlterColumn): string { if Blank(L, c.newName) then c.was.name else c.newName }

  predicate AsksName(L: Lexis, c: AlterColumn) { AskedName(L, c) != c.was.name }

  /** Another type: not only other letters or other space around it. */
  predicate AsksType(L: Lexis, c: AlterColumn) {
    !Blank(L, c.typ) && !SameWords(Trim(L.space, c.typ), Trim(L.space, c.was.dataType))
  }

  predicate AsksNull(c: AlterColumn) { if c.notNull then c.was.nullable else !c.was.nullable }

  predicate AsksDefault(c: AlterColumn) { c.default.kind != DefaultKeep }

  predicate AsksMore(L: Lexis, c: AlterColumn) { AsksType(L, c) || AsksNull(c) || AsksDefault(c) }

  /** The names, types and defaults that go into a statement pass the checks. */
  predicate ValidRequest(L: Lexis, c: AlterColumn) {
    && !Blank(L, AskedName(L, c)) && '\0' !in AskedName(L, c)
    && (AsksType(L, c) ==> TypeOutcome(L, c.typ) == Pass)
    && (AsksDefault(c) ==> DefaultOutcome(L, c.default) == Pass)
  }

  /** The column that was asked for: what is not asked for stays as it is. */
  predicate IsAsked(L: Lexis, e: Engine, c: AlterColumn, k: ServerColumn, out: ServerColumn) {
    && out.name == AskedName(L, c)
    && out.typ == (if AsksType(L, c) then Trim(L.space, c.typ) else k.typ)
    && out.notNull == c.notNull
    && out.default == (if AsksDefault(c) then Wanted(L, e, c.default) else k.default)
    && out.autoIncrement == k.autoIncrement && out.onUpdate == k.onUpdate
  }

  // ---------- the code's questions ----------

  lemma SameWordsLower(a: string, b: string)
    ensures SameWords(a, b) <==> Lower(a) == Lower(b)
  {
    var x, y := Lower(a), Lower(b);
    if |a| == |b| {
      forall i | 0 <= i < |a|
        ensures SameLetter(a[i], b[i]) <==> x[i] == y[i]
      {
        assert x[i] == LowerChar(a[i]) && y[i] == LowerChar(b[i]);
      }
      assert SameWords(a, b) <==> forall i :: 0 <= i < |a| ==> x[i] == y[i];
    }
  }

  lemma QuestionsAgree(L: Lexis, c: AlterColumn)
    ensures c.FinalName(L) == AskedName(L, c)
    ensures c.Renamed(L) <==> AsksName(L, c)
    ensures c.Retyped(L) <==> AsksType(L, c)
    ensures c.NullChanged() <==> AsksNull(c)
    ensures c.DefaultChanged() <==> AsksDefault(c)
  {
    hide Trim, Blank, Lower, SameWords;
    BlankTrims(L, c.newName);
    BlankTrims(L, c.typ);
    SameWordsLower(Trim(L.space, c.typ), Trim(L.space, c.was.dataType));
  }

  /** When there is nothing to change, when the engine cannot do it, and when
      statements are rendered. */
  lemma RenderedWhen(L: Lexis, e: Engine, c: AlterColumn)
    ensures Rendered(L, e, c) == NothingToChange <==> !AsksName(L, c) && !AsksMore(L, c)
    ensures Rendered(L, e, c) == Unsupported <==> e == EngineSQLite && AsksMore(L, c)
    ensures Rendered(L, e, c).Statements? <==>
            (AsksName(L, c) || AsksMore(L, c)) && !(e == EngineSQLite && AsksMore(L, c)) && ValidRequest(L, c)
  {
    hide AskedName, AsksName, AsksType, AsksNull, AsksDefault, AlterColumn.FinalName, AlterColumn.Renamed,
      AlterColumn.Retyped, AlterColumn.NullChanged, AlterColumn.DefaultChanged, Spelled, TypeOutcome, DefaultOutcome,
      NeedName, Blank;
    QuestionsAgree(L, c);
    NamePasses(L, AskedName(L, c));
  }

  /** The column every engine aims at is the one that was asked for. */
  lemma TargetAsked(L: Lexis, e: Engine, c: AlterColumn, k: ServerColumn)
    requires c.was.name == k.name && c.was.dataType == k.typ
    ensures IsAsked(L, e, c, k, Target(L, e, c, k))
  {
    hide Wanted, AskedName, AsksType, AsksDefault, AlterColumn.FinalName, AlterColumn.Retyped,
      AlterColumn.DefaultChanged;
    QuestionsAgree(L, c);
  }

  /** Whatever statements an engine is sent, if none fails the table has the
      column that was asked for in the place of the old one, and every other
      column as it was. */
  lemma AlterDoes(S: Server, L: Lexis, e: Engine, c: AlterColumn, t: Table, i: nat, generated: bool)
    requires L.Valid() && L.d == e.For() && Rendered(L, e, c).Statements?
    requires Distinct(t) && i < |t| && Describes(L, e, t[i], c.was, generated)
    requires ExecAll(S, L, e, Rendered(L, e, c).list, t).Some?
    ensures var u := ExecAll(S, L, e, Rendered(L, e, c).list, t).value;
            && |u| == |t| && IsAsked(L, e, c, t[i], u[i])
            && (forall j :: 0 <= j < |t| && j != i ==> u[j] == t[j])
            && Distinct(u)
  {
    AlterReaches(S, L, e, c, t, i, generated);
    hide ExecAll, Rendered, Target, DefaultSpellable, UpdateSuits, Allowed, IsAsked, NameFree;
    TargetAsked(L, e, c, t[i]);
    StaysDistinct(L, e, c, t, i);
  }
}
