/** The interactive transaction of internal/db/tx.go and its monitors in
    internal/db/tx_dialects.go, against a server that may react in any way the
    comments there document. */
module Transactions {
  import opened Sqlhl
  import opened Literal
  import opened TxText

  datatype TxState = Active | Aborted | Lost | Closed

  // ---------- the server ----------

  /** The server's own view of the transaction: open and usable, failed until a
      rollback, or over - committed or not. */
  datatype ServerTx = Open | Failed | Over(committed: bool)

  /** The error a driver call returns. */
  datatype Err = NoErr | ConnErr | MySQLErr(number: int) | AbortedErr | OtherErr

  datatype Probe = ProbeOk | ProbeAborted | ProbeFailed

  /** How the server and the driver reacted to one statement: the error, the
      transaction afterwards, whether the connection survived, and what the
      monitors can observe - the answer of connGone, SQLite's rollback hook, the
      probes, an unreadable pgx connection, and MySQL's setting. */
  datatype Reaction = Reaction(
    err: Err, srv: ServerTx, alive: bool,
    gone: bool, hook: bool, probe: Probe, rawErr: bool, rollbackOnTimeout: bool)

  /** A lost connection is noticed, and ends whatever is on it. */
  predicate LostLink(was: ServerTx, r: Reaction) {
    && !r.alive && r.err != NoErr && r.gone && !r.hook
    && r.srv == (if was.Over? then was else Over(false))
  }

  /** DuckDB's probe tells the truth, or fails. */
  predicate HonestProbe(e: Engine, r: Reaction) {
    e == EngineDuckDB ==>
    && (r.probe == ProbeAborted ==> r.srv == Failed)
    && (r.probe == ProbeOk ==> r.srv == Open)
  }

  /** What a statement that is not transaction control may do, engine by engine. */
  predicate MayRun(e: Engine, kind: StatementKind, was: ServerTx, r: Reaction) {
    || LostLink(was, r)
    || (r.alive && HonestProbe(e, r) && (r.err == ConnErr ==> r.gone) && (e != EngineSQLite ==> !r.hook) &&
        match e
        // An error aborts the whole transaction; only a partial rollback
        // revives it.
        case EnginePostgres =>
          if was.Over? then true
          else if r.err != NoErr then r.srv == Failed
          else r.srv == Open && (was == Failed ==> kind == SavepointRollback)
        // The same, but there is no partial rollback, and only some errors
        // abort.
        case EngineDuckDB =>
          if was == Failed then r.srv == Failed && r.err != NoErr
          else if was == Open then
            if r.err == NoErr then r.srv == Open
            else (r.srv == Open && r.err != AbortedErr) || r.srv == Failed
          else true
        // An ordinary error undoes its statement; a deadlock, and a lock wait
        // timeout on some servers, undo the transaction.
        case EngineMySQL => MySQLMayRun(was, r)
        case EngineMariaDB => MySQLMayRun(was, r)
        // An ordinary error undoes its statement; some roll everything back,
        // and the hook fires on exactly those.
        case EngineSQLite =>
          if was == Open then
            if r.err == NoErr then r.srv == Open && !r.hook
            else if r.hook then r.srv == Over(false)
            else r.srv == Open
          else r.srv == was)
  }

  predicate MySQLMayRun(was: ServerTx, r: Reaction) {
    if was == Open then
      if r.err == MySQLErr(1213) then r.srv == Over(false)
      else if r.err == MySQLErr(1205) then r.srv == (if r.rollbackOnTimeout then Over(false) else Open)
      else r.srv == Open
    else r.srv == was
  }

  /** The reaction to a statement of any kind: control statements and implicit
      commits may do anything at all to the transaction. */
  predicate Legal(e: Engine, kind: StatementKind, was: ServerTx, r: Reaction) {
    kind == Control || kind == ImplicitCommit || MayRun(e, kind, was, r)
  }

  /** The reply to a COMMIT was lost with the connection: the server may have
      committed or not. */
  predicate ReplyLost(was: ServerTx, r: Reaction) {
    was == Open && !r.alive && r.err != NoErr && r.gone && !r.hook && r.srv.Over?
  }

  /** What COMMIT may do. An aborted transaction is rolled back, and COMMIT may
      still answer with success. */
  predicate LegalCommit(e: Engine, was: ServerTx, r: Reaction) {
    || ReplyLost(was, r)
    || (r.alive && HonestProbe(e, r) && (r.err == ConnErr ==> r.gone) && (e != EngineSQLite ==> !r.hook) &&
        match was
        case Failed => r.srv == Over(false)
        case Over(_) => r.srv == was
        case Open =>
          if r.err == NoErr then r.srv == Over(true) && !r.hook
          else if e == EngineSQLite then r.srv == (if r.hook then Over(false) else Open)
          else r.srv == Over(false))
  }

  /** What ROLLBACK may do: undo the transaction, or fail and leave it. */
  predicate LegalRollback(was: ServerTx, r: Reaction) {
    if was.Over? then r.srv == was
    else if r.err == NoErr then r.srv == Over(false)
    else r.srv == was || r.srv == Over(false)
  }

  // ---------- the monitors ----------

  function GenericAfter(r: Reaction): TxState {
    if r.err == NoErr then Active else if r.gone then Lost else Active
  }

  /** Each dialect's `after`. */
  function After(e: Engine, hooked: bool, r: Reaction): TxState {
    match e
    case EnginePostgres =>
      if r.rawErr || !r.alive then Lost
      else match r.srv { case Open => Active case Failed => Aborted case Over(_) => Lost }
    case EngineMySQL => MySQLAfter(r)
    case EngineMariaDB => MySQLAfter(r)
    case EngineSQLite => if hooked then Lost else GenericAfter(r)
    case EngineDuckDB =>
      if r.err == NoErr then Active
      else if r.gone then Lost
      else if r.err == AbortedErr || r.probe == ProbeAborted then Aborted
      else if r.probe == ProbeFailed then Lost
      else Active
  }

  function MySQLAfter(r: Reaction): TxState {
    if r.err == MySQLErr(1213) then Lost
    else if r.err == MySQLErr(1205) && (r.probe == ProbeFailed || r.rollbackOnTimeout) then Lost
    else GenericAfter(r)
  }

  /** Each dialect's `afterCommit`. */
  function AfterCommit(e: Engine, hooked: bool, r: Reaction): TxState {
    match e
    case EnginePostgres => After(e, hooked, r)
    case EngineSQLite => After(e, hooked, r)
    case _ => Lost
  }

  // ---------- the handle ----------

  datatype Link = Held | Pooled | Discarded

  /** A handle with its connection: the state and statement count it keeps,
      SQLite's rolledBack flag, what became of the connection, and - on the
      other side - the server's transaction and whether a COMMIT's reply was
      lost. */
  datatype Handle = Handle(state: TxState, n: nat, hooked: bool, link: Link, srv: ServerTx, replyLost: bool)

  datatype Answer = Done | Refused(state: TxState) | RefusedControl | RefusedImplicit | Error(err: Err)

  const Begun := Handle(Active, 0, false, Held, Open, false)

  /** admit: what is refused before anything reaches the server. */
  function Admit(e: Engine, L: Lexis, h: Handle, sql: string): Answer {
    if h.state == Closed then Refused(Closed)
    else if h.state == Lost then Refused(Lost)
    else if h.state == Aborted && !IsRollbackToSavepoint(L, sql) then Refused(Aborted)
    else if IsTxControl(e, L, sql) then RefusedControl
    else if CommitsImplicitly(e, L, sql) then RefusedImplicit
    else Done
  }

  /** Exec and QueryLimit: admit, run, settle. */
  function ExecStep(e: Engine, L: Lexis, h: Handle, sql: string, r: Reaction): (Handle, Answer) {
    var a := Admit(e, L, h, sql);
    if a != Done then (h, a)
    else
      var hooked := h.hooked || r.hook;
      (h.(state := After(e, hooked, r), n := if r.err == NoErr then h.n + 1 else h.n, hooked := hooked, srv := r.srv),
       if r.err == NoErr then Done else Error(r.err))
  }

  /** The server side of a connection that is given back or closed: closing it
      ends what is on it. */
  function Finish(h: Handle, bad: bool): Handle {
    h.(state := Closed, link := if bad then Discarded else Pooled,
       srv := if bad && !h.srv.Over? then Over(false) else h.srv)
  }

  function CommitStep(e: Engine, h: Handle, r: Reaction): (Handle, Answer) {
    if h.state != Active then (h, Refused(h.state))
    else if r.err == NoErr then (Finish(h.(srv := r.srv), false), Done)
    else
      var hooked := h.hooked || r.hook;
      (h.(state := AfterCommit(e, hooked, r), hooked := hooked, srv := r.srv, replyLost := ReplyLost(h.srv, r)), Error(r.err))
  }

  function RollbackStep(h: Handle, r: Reaction): (Handle, Answer) {
    if h.state == Closed then (h, Done)
    else
      (Finish(h.(srv := r.srv), r.err != NoErr), if h.state == Lost || r.err == NoErr then Done else Error(r.err))
  }

  // ---------- what a handle says is true ----------

  /** The handle is a sound abstraction of the server's transaction. */
  ghost predicate Sound(e: Engine, h: Handle) {
    && (h.state == Active ==> h.srv == Open)
    && (h.state == Aborted ==> h.srv == Failed && (e == EnginePostgres || e == EngineDuckDB))
    && (h.state == Lost && h.srv == Over(true) ==> h.replyLost)
    && (h.state == Closed ==> h.srv.Over? && h.link != Held)
    && (h.state != Closed ==> h.link == Held)
    && (h.replyLost ==> h.state == Lost || h.state == Closed)
    && (h.hooked && h.state != Closed ==> h.state == Lost)
  }

  /** The lifecycle: closed is final, lost goes only to closed, and aborted comes
      back only through a partial rollback. */
  predicate MayGo(from: TxState, to: TxState, partial: bool) {
    match from
    case Active => true
    case Aborted => to == Active ==> partial
    case Lost => to == Lost || to == Closed
    case Closed => to == Closed
  }

  lemma ExecSound(e: Engine, L: Lexis, h: Handle, sql: string, r: Reaction)
    requires Sound(e, h) && Legal(e, ServerKind(e, L, sql), h.srv, r)
    ensures var (to, a) := ExecStep(e, L, h, sql, r);
            && Sound(e, to)
            && MayGo(h.state, to.state, ServerKind(e, L, sql) == SavepointRollback)
            && (to.srv == Over(true) ==> h.srv == Over(true))
            && (a == Done ==> to.n == h.n + 1) && (a != Done ==> to.n == h.n)
  {
    hide IsRollbackToSavepoint, IsTxControl, CommitsImplicitly, ServerKind;
    if Admit(e, L, h, sql) == Done {
      Classified(e, L, sql);
      assert MayRun(e, ServerKind(e, L, sql), h.srv, r);
    }
  }

  /** What is refused is exactly what the server would take for control or for
      an implicit commit, and in an aborted transaction exactly what is not a
      partial rollback. */
  lemma AdmitExact(e: Engine, L: Lexis, h: Handle, sql: string)
    ensures var kind, a := ServerKind(e, L, sql), Admit(e, L, h, sql);
            match h.state
            case Active =>
              && (a == RefusedControl <==> kind == Control)
              && (a == RefusedImplicit <==> kind == ImplicitCommit)
              && (a == Done <==> kind == Ordinary || kind == SavepointRollback)
            case Aborted => a == if kind == SavepointRollback then Done else Refused(Aborted)
            case _ => a == Refused(h.state)
  {
    hide IsRollbackToSavepoint, IsTxControl, CommitsImplicitly, ServerKind;
    Classified(e, L, sql);
  }

  /** The other half of soundness: as long as the connection and the probes
      answer, the handle says exactly what the server has, so a transaction that
      an error left open is never given up. */
  lemma ExecExact(e: Engine, L: Lexis, h: Handle, sql: string, r: Reaction)
    requires Sound(e, h) && Legal(e, ServerKind(e, L, sql), h.srv, r) && Admit(e, L, h, sql) == Done
    requires r.alive && !r.gone && !r.rawErr && r.probe != ProbeFailed
    ensures var to := ExecStep(e, L, h, sql, r).0;
            && (to.state == Active <==> r.srv == Open)
            && (to.state == Aborted <==> r.srv == Failed)
            && (to.state == Lost <==> r.srv.Over?)
  {
    hide IsRollbackToSavepoint, IsTxControl, CommitsImplicitly, ServerKind;
    AdmitExact(e, L, h, sql);
  }

  /** The same for COMMIT: an active handle answers nil exactly when the server
      committed, and goes on exactly when there is a transaction left. */
  lemma CommitExact(e: Engine, h: Handle, r: Reaction)
    requires Sound(e, h) && LegalCommit(e, h.srv, r)
    requires r.alive && !r.gone && !r.rawErr && r.probe != ProbeFailed
    ensures var (to, a) := CommitStep(e, h, r);
            && (h.state == Active ==> (a == Done <==> r.srv == Over(true)))
            && (h.state == Active ==> (to.state == Active <==> r.srv == Open))
  {
  }

  /** A nil Commit is sent only in a transaction that is open, and means the
      server committed; a COMMIT that failed leaves a handle that still tells
      the truth. */
  lemma CommitSound(e: Engine, h: Handle, r: Reaction)
    requires Sound(e, h) && LegalCommit(e, h.srv, r)
    ensures var (to, a) := CommitStep(e, h, r);
            && Sound(e, to)
            && MayGo(h.state, to.state, false)
            && (a == Done ==> h.state == Active && to.state == Closed && to.srv == Over(true) && to.link == Pooled)
            && (a.Refused? ==> to == h)
            && (to.srv == Over(true) && h.srv != Over(true) ==> a == Done || to.replyLost)
  {
  }

  /** A rollback always spends the handle, never commits anything, and never
      puts a connection with a transaction on it back into the pool. */
  lemma RollbackSound(e: Engine, h: Handle, r: Reaction)
    requires Sound(e, h) && LegalRollback(h.srv, r)
    ensures var (to, a) := RollbackStep(h, r);
            && Sound(e, to) && to.state == Closed
            && (to.srv == Over(true) ==> h.srv == Over(true))
            && (h.state == Lost ==> a == Done)
  {
  }

  // ---------- sessions ----------

  /** A session: the handles it has given out and the slot Begin fills. A handle
      that is spent still holds the slot until its finish gives it back. */
  datatype Session = Session(handles: seq<Handle>, slot: int)

  const NoTx := -1

  /** The atomic sections of the calls made on a session. Statements of one
      handle are serialized by its mutex; Begin and the end of finish take the
      session's. */
  datatype Event =
    | Begin(ok: bool)
    | Exec(i: nat, sql: string, r: Reaction)
    | Commit(i: nat, r: Reaction)
    | Rollback(i: nat, r: Reaction)
    | Release(i: nat)

  /** What the server and the scheduler may do next. */
  ghost predicate MayHappen(e: Engine, L: Lexis, s: Session, ev: Event) {
    match ev
    case Begin(_) => true
    case Exec(i, sql, r) => i < |s.handles| && Legal(e, ServerKind(e, L, sql), s.handles[i].srv, r)
    case Commit(i, r) => i < |s.handles| && LegalCommit(e, s.handles[i].srv, r)
    case Rollback(i, r) => i < |s.handles| && LegalRollback(s.handles[i].srv, r)
    case Release(i) => i < |s.handles| && s.handles[i].state == Closed
  }

  /** Begin: refused while the slot is taken, else a fresh handle takes it. */
  function BeginStep(s: Session, ok: bool): Session {
    if s.slot != NoTx || !ok then s else Session(s.handles + [Begun], |s.handles|)
  }

  function Next(e: Engine, L: Lexis, s: Session, ev: Event): Session
    requires MayHappen(e, L, s, ev)
  {
    match ev
    case Begin(ok) => BeginStep(s, ok)
    case Exec(i, sql, r) => s.(handles := s.handles[i := ExecStep(e, L, s.handles[i], sql, r).0])
    case Commit(i, r) => s.(handles := s.handles[i := CommitStep(e, s.handles[i], r).0])
    case Rollback(i, r) => s.(handles := s.handles[i := RollbackStep(s.handles[i], r).0])
    case Release(i) => if s.slot == i then s.(slot := NoTx) else s
  }

  /** Every handle tells the truth, and one that is not closed holds the slot. */
  ghost predicate Safe(e: Engine, s: Session) {
    && (forall i :: 0 <= i < |s.handles| ==> Sound(e, s.handles[i]))
    && (forall i :: 0 <= i < |s.handles| && s.handles[i].state != Closed ==> s.slot == i)
    && NoTx <= s.slot < |s.handles|
  }

  /** A run of a session, from the first Begin on: the states it goes through. */
  ghost predicate IsRun(e: Engine, L: Lexis, run: seq<Session>, events: seq<Event>) {
    && |run| == |events| + 1
    && run[0] == Session([], NoTx)
    && forall k :: 0 <= k < |events| ==> MayHappen(e, L, run[k], events[k]) && run[k + 1] == Next(e, L, run[k], events[k])
  }

  /** What one event may do to a handle that is there. */
  ghost predicate Kept(L: Lexis, was: Handle, now: Handle, partial: bool) {
    && MayGo(was.state, now.state, partial)
    && was.n <= now.n <= was.n + 1
    && (now.srv == Over(true) && was.srv != Over(true) ==> was.state == Active && (now.state == Closed || now.replyLost))
  }

  ghost predicate Partial(e: Engine, L: Lexis, ev: Event) {
    ev.Exec? && ServerKind(e, L, ev.sql) == SavepointRollback
  }

  lemma StepSafe(e: Engine, L: Lexis, s: Session, ev: Event)
    requires Safe(e, s) && MayHappen(e, L, s, ev)
    ensures Safe(e, Next(e, L, s, ev))
    ensures |s.handles| <= |Next(e, L, s, ev).handles|
    ensures forall i :: 0 <= i < |s.handles| ==> Kept(L, s.handles[i], Next(e, L, s, ev).handles[i], Partial(e, L, ev))
  {
    hide Legal, LegalCommit, LegalRollback, ServerKind, ExecStep, CommitStep, RollbackStep, Kept, Sound;
    forall i | 0 <= i < |s.handles|
      ensures Kept(L, s.handles[i], s.handles[i], Partial(e, L, ev))
    {
      SameKept(L, s.handles[i], Partial(e, L, ev));
    }
    match ev
    case Begin(ok) => BegunSound(e);
    case Exec(i, sql, r) =>
      ExecSound(e, L, s.handles[i], sql, r);
      ExecKept(e, L, s.handles[i], sql, r);
      OneHandle(e, L, s, i, ExecStep(e, L, s.handles[i], sql, r).0, Partial(e, L, ev));
    case Commit(i, r) =>
      CommitSound(e, s.handles[i], r);
      CommitKept(e, L, s.handles[i], r);
      OneHandle(e, L, s, i, CommitStep(e, s.handles[i], r).0, false);
    case Rollback(i, r) =>
      RollbackSound(e, s.handles[i], r);
      RollbackKept(L, s.handles[i], r);
      OneHandle(e, L, s, i, RollbackStep(s.handles[i], r).0, false);
    case Release(i) =>
  }

  /** An event that touches one handle. */
  lemma OneHandle(e: Engine, L: Lexis, s: Session, i: nat, h: Handle, partial: bool)
    requires Safe(e, s) && i < |s.handles| && Sound(e, h) && Kept(L, s.handles[i], h, partial)
    ensures Safe(e, s.(handles := s.handles[i := h]))
  {
    hide Sound;
  }

  lemma SameKept(L: Lexis, h: Handle, partial: bool)
    ensures Kept(L, h, h, partial)
  {
  }

  lemma BegunSound(e: Engine)
    ensures Sound(e, Begun)
  {
  }

  lemma ExecKept(e: Engine, L: Lexis, h: Handle, sql: string, r: Reaction)
    requires Sound(e, h) && Legal(e, ServerKind(e, L, sql), h.srv, r)
    ensures Kept(L, h, ExecStep(e, L, h, sql, r).0, ServerKind(e, L, sql) == SavepointRollback)
  {
    hide ExecStep, Sound, Legal, ServerKind;
    ExecSound(e, L, h, sql, r);
  }

  lemma CommitKept(e: Engine, L: Lexis, h: Handle, r: Reaction)
    requires Sound(e, h) && LegalCommit(e, h.srv, r)
    ensures Kept(L, h, CommitStep(e, h, r).0, false)
  {
  }

  lemma RollbackKept(L: Lexis, h: Handle, r: Reaction)
    requires LegalRollback(h.srv, r)
    ensures Kept(L, h, RollbackStep(h, r).0, false)
  {
  }

  /** Safety over every run: between any two events every handle tells the truth
      about the server, and no session has two open handles. A statement and the
      settling of its outcome are one event. */
  lemma {:induction false} RunSafe(e: Engine, L: Lexis, run: seq<Session>, events: seq<Event>, k: nat)
    requires IsRun(e, L, run, events) && k < |run|
    ensures Safe(e, run[k])
  {
    hide Safe, MayHappen, Next;
    if k == 0 {
      assert Safe(e, run[0]) by { StartSafe(e); }
    } else {
      RunSafe(e, L, run, events, k - 1);
      StepSafe(e, L, run[k - 1], events[k - 1]);
    }
  }

  lemma StartSafe(e: Engine)
    ensures Safe(e, Session([], NoTx))
  {
  }

  lemma OneOpenHandle(e: Engine, s: Session, i: nat, j: nat)
    requires Safe(e, s) && i < |s.handles| && j < |s.handles|
    requires s.handles[i].state != Closed && s.handles[j].state != Closed
    ensures i == j
  {
  }

  /** A nil Commit in any run: the server committed, and it had not before. */
  lemma NilCommitCommitted(e: Engine, L: Lexis, run: seq<Session>, events: seq<Event>, k: nat)
    requires IsRun(e, L, run, events) && k < |events| && events[k].Commit?
    requires CommitStep(e, run[k].handles[events[k].i], events[k].r).1 == Done
    ensures var i := events[k].i;
            && run[k].handles[i].srv == Open
            && run[k + 1].handles[i].srv == Over(true) && run[k + 1].handles[i].state == Closed
  {
    hide LegalCommit, LegalRollback, Legal, CommitStep, ExecStep, RollbackStep;
    RunSafe(e, L, run, events, k);
    CommitSound(e, run[k].handles[events[k].i], events[k].r);
  }

  /** Closed is final and lost goes only to closed, over any stretch of a run. */
  lemma {:induction false} EndsAreFinal(e: Engine, L: Lexis, run: seq<Session>, events: seq<Event>, a: nat, b: nat, i: nat)
    requires IsRun(e, L, run, events) && a <= b < |run| && i < |run[a].handles|
    ensures i < |run[b].handles|
    ensures run[a].handles[i].state == Closed ==> run[b].handles[i].state == Closed
    ensures run[a].handles[i].state == Lost ==> run[b].handles[i].state == Lost || run[b].handles[i].state == Closed
    decreases b - a
  {
    hide Safe, MayHappen, Next;
    if a < b {
      EndsAreFinal(e, L, run, events, a, b - 1, i);
      RunSafe(e, L, run, events, b - 1);
      StepSafe(e, L, run[b - 1], events[b - 1]);
      assert Kept(L, run[b - 1].handles[i], run[b].handles[i], Partial(e, L, events[b - 1]));
    }
  }

  /** When an aborted handle is active again, the statement that did it was a
      partial rollback. */
  lemma RevivedByPartialRollback(e: Engine, L: Lexis, run: seq<Session>, events: seq<Event>, k: nat, i: nat)
    requires IsRun(e, L, run, events) && k < |events| && i < |run[k].handles|
    requires run[k].handles[i].state == Aborted && i < |run[k + 1].handles| && run[k + 1].handles[i].state == Active
    ensures events[k].Exec? && ServerKind(e, L, events[k].sql) == SavepointRollback
  {
    hide Safe, MayHappen, Next, ServerKind;
    RunSafe(e, L, run, events, k);
    StepSafe(e, L, run[k], events[k]);
    assert Kept(L, run[k].handles[i], run[k + 1].handles[i], Partial(e, L, events[k]));
  }

  /** What ErrTxLost says - nothing in it was committed - is true of a lost
      handle exactly as long as no COMMIT's reply was lost with the connection
      after the server had committed. */
  lemma LostMeansNotCommitted(e: Engine, L: Lexis, run: seq<Session>, events: seq<Event>, k: nat, i: nat)
    requires IsRun(e, L, run, events) && k < |run| && i < |run[k].handles|
    requires run[k].handles[i].state == Lost && !run[k].handles[i].replyLost
    ensures run[k].handles[i].srv != Over(true)
  {
    hide MayHappen, Next;
    RunSafe(e, L, run, events, k);
  }

  /** And the claim does fail then: a COMMIT that the server carried out, whose
      reply never came, leaves a handle that says nothing was committed. */
  lemma LostReplyCommitted(e: Engine, L: Lexis)
    ensures var r := Reaction(ConnErr, Over(true), false, true, false, ProbeFailed, true, false);
            var s0 := Session([], NoTx);
            var s1, ev := Session([Begun], 0), Commit(0, r);
            && MayHappen(e, L, s0, Begin(true)) && Next(e, L, s0, Begin(true)) == s1
            && MayHappen(e, L, s1, ev)
            && var h := Next(e, L, s1, ev).handles[0];
               h.state == Lost && h.srv == Over(true)
  {
  }

  // ---------- the objects ----------

  /** The session's slot for its one interactive transaction. */
  class Conn {
    const e: Engine
    const L: Lexis
    var tx: InteractiveTx?

    constructor (e: Engine, L: Lexis)
      ensures this.e == e && this.L == L && tx == null
    {
      this.e, this.L, this.tx := e, L, null;
    }

    /** BEGIN: refused while a handle holds the slot. */
    method Begin(ok: bool) returns (t: InteractiveTx?)
      modifies `tx
      ensures old(tx) != null || !ok ==> t == null && tx == old(tx)
      ensures old(tx) == null && ok ==> t != null && fresh(t) && tx == t && t.View() == Begun && t.c == this
    {
      if tx != null {
        return null;
      }
      if !ok {
        return null;
      }
      t := new InteractiveTx(this);
      tx := t;
    }

    /** rollbackOpenTx: what closing the session does first. */
    method RollbackOpenTx(r: Reaction)
      requires tx != null ==> tx.c == this && Sound(e, tx.View()) && LegalRollback(tx.srv, r)
      modifies this, if tx == null then {} else {tx}
      ensures old(tx) != null && old(tx.state) != Closed ==> old(tx).state == Closed && tx == null
    {
      var t := tx;
      if t == null {
        return;
      }
      var a := t.Rollback(r);
    }
  }

  class InteractiveTx {
    const c: Conn
    var state: TxState
    var n: nat
    var rolledBack: bool  // set by SQLite's rollback hook
    var link: Link
    ghost var srv: ServerTx
    ghost var replyLost: bool

    ghost function View(): Handle
      reads this
    {
      Handle(state, n, rolledBack, link, srv, replyLost)
    }

    constructor (c: Conn)
      ensures this.c == c && View() == Begun
    {
      this.c, state, n, rolledBack, link, srv, replyLost := c, Active, 0, false, Held, Open, false;
    }

    /** settle. */
    method Settle(r: Reaction)
      modifies `state, `n, `rolledBack, `srv
      ensures rolledBack == (old(rolledBack) || r.hook) && srv == r.srv
      ensures state == After(c.e, rolledBack, r) && n == if r.err == NoErr then old(n) + 1 else old(n)
    {
      if r.hook {
        rolledBack := true;
      }
      if r.err == NoErr {
        n := n + 1;
      }
      srv := r.srv;
      state := After(c.e, rolledBack, r);
    }

    /** Exec, and QueryLimit as far as the transaction goes. */
    method Exec(sql: string, r: Reaction) returns (a: Answer)
      requires Sound(c.e, View()) && Legal(c.e, ServerKind(c.e, c.L, sql), srv, r)
      modifies `state, `n, `rolledBack, `srv
      ensures (View(), a) == ExecStep(c.e, c.L, old(View()), sql, r)
      ensures Sound(c.e, View())
      ensures a.Refused? || a == RefusedControl || a == RefusedImplicit ==> View() == old(View())
      ensures old(state) == Active ==> (a == RefusedControl <==> ServerKind(c.e, c.L, sql) == Control)
      ensures old(state) == Active ==> (a == RefusedImplicit <==> ServerKind(c.e, c.L, sql) == ImplicitCommit)
      ensures old(state) == Aborted ==> (a == Refused(Aborted) <==> ServerKind(c.e, c.L, sql) != SavepointRollback)
    {
      ExecSound(c.e, c.L, View(), sql, r);
      AdmitExact(c.e, c.L, View(), sql);
      hide Legal, Sound, ServerKind, IsRollbackToSavepoint, IsTxControl, CommitsImplicitly, After;
      match state {
        case Closed => return Refused(Closed);
        case Lost => return Refused(Lost);
        case Aborted =>
          if !IsRollbackToSavepoint(c.L, sql) {
            return Refused(Aborted);
          }
        case Active =>
      }
      if IsTxControl(c.e, c.L, sql) {
        return RefusedControl;
      }
      if CommitsImplicitly(c.e, c.L, sql) {
        return RefusedImplicit;
      }
      Settle(r);
      return if r.err == NoErr then Done else Error(r.err);
    }

    /** finish: spends the handle and gives the connection and the slot back. */
    method FinishUp(bad: bool)
      modifies `state, `link, `srv, c`tx
      ensures View() == Finish(old(View()), bad)
      ensures c.tx == if old(c.tx) == this then null else old(c.tx)
    {
      state := Closed;
      link := if bad then Discarded else Pooled;
      if bad && !srv.Over? {
        srv := Over(false);
      }
      if c.tx == this {
        c.tx := null;
      }
    }

    method Commit(r: Reaction) returns (a: Answer)
      requires Sound(c.e, View()) && LegalCommit(c.e, srv, r)
      modifies this, c`tx
      ensures (View(), a) == CommitStep(c.e, old(View()), r)
      ensures Sound(c.e, View())
      ensures a == Done ==> old(srv) == Open && srv == Over(true)
      ensures c.tx == if a == Done && old(c.tx) == this then null else old(c.tx)
    {
      CommitSound(c.e, View(), r);
      hide LegalCommit, After, AfterCommit, ReplyLost;
      if state != Active {
        return Refused(state);
      }
      ghost var was := srv;
      srv := r.srv;
      if r.err == NoErr {
        FinishUp(false);
        return Done;
      }
      if r.hook {
        rolledBack := true;
      }
      state := AfterCommit(c.e, rolledBack, r);
      replyLost := ReplyLost(was, r);
      return Error(r.err);
    }

    method Rollback(r: Reaction) returns (a: Answer)
      requires Sound(c.e, View()) && LegalRollback(srv, r)
      modifies this, c`tx
      ensures (View(), a) == RollbackStep(old(View()), r)
      ensures Sound(c.e, View()) && state == Closed
      ensures c.tx == if old(state) != Closed && old(c.tx) == this then null else old(c.tx)
    {
      RollbackSound(c.e, View(), r);
      hide LegalRollback;
      if state == Closed {
        return Done;
      }
      var lost := state == Lost;
      srv := r.srv;
      FinishUp(r.err != NoErr);
      return if lost || r.err == NoErr then Done else Error(r.err);
    }
  }
}
