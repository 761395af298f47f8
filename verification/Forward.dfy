/** The local forward of internal/sshtunnel/forward.go: an accept loop, a splice
    goroutine for each accepted client, and Close, which waits for all of them
    on a wait group. */
module Forwards {

  // ---------- the mutex sections ----------

  /** What the mutex guards, and the context that Close cancels under it. */
  datatype Guarded = Guarded(closed: bool, conns: set<nat>, cancelled: bool)

  /** The section of the accept loop. */
  function AdmitSection(g: Guarded, c: nat): Guarded {
    if g.closed then g else g.(conns := g.conns + {c})
  }

  /** The section at the end of a splice. */
  function RemoveSection(g: Guarded, c: nat): Guarded { g.(conns := g.conns - {c}) }

  /** The section of Close. */
  function CloseSection(g: Guarded): Guarded {
    if g.closed then g else g.(closed := true, cancelled := true)
  }

  /** The object, one method a section. */
  class Forward {
    var closed: bool
    var conns: set<nat>
    var cancelled: bool

    ghost function View(): Guarded
      reads this
    {
      Guarded(closed, conns, cancelled)
    }

    constructor ()
      ensures View() == Guarded(false, {}, false)
    {
      closed, conns, cancelled := false, {}, false;
    }

    method Admit(c: nat) returns (ok: bool)
      modifies this
      ensures View() == AdmitSection(old(View()), c) && ok == !old(closed)
    {
      if closed {
        return false;
      }
      conns := conns + {c};
      return true;
    }

    method Remove(c: nat)
      modifies this
      ensures View() == RemoveSection(old(View()), c)
    {
      conns := conns - {c};
    }

    method BeginClose() returns (first: bool, snapshot: set<nat>)
      modifies this
      ensures View() == CloseSection(old(View())) && first == !old(closed)
      ensures first ==> snapshot == old(conns)
    {
      snapshot := {};
      if closed {
        return false, snapshot;
      }
      closed := true;
      cancelled := true;
      snapshot := conns;
      return true, snapshot;
    }
  }

  // ---------- the protocol ----------

  /** Where the accept loop stands: in Accept, holding a connection it has not
      registered, holding one it must refuse, about to start the goroutine of
      one it registered, about to call Done, gone. */
  datatype AcceptPC = Accepting | Got(c: nat) | Refusing(c: nat) | Starting(c: nat) | Leaving | AcceptGone

  /** Where the goroutine of one client stands: not started, dialing, copying,
      past closing the remote end, past leaving the set, past closing the
      client, gone. */
  datatype SplicePC = NotStarted | Dialing | Copying | RemoteDown | Removed | LocalDown | SpliceGone

  /** A client: accepted yet, its socket, the remote socket, its goroutine. */
  datatype Client = Client(accepted: bool, open: bool, remote: bool, pc: SplicePC)

  /** Where a call to Close stands: past the mutex, past closing the listener
      and on to its snapshot, waiting for the group, returned. */
  datatype CloserPC = NotCalled | Locked(todo: set<nat>) | Closing(todo: set<nat>) | WaitingGroup | Returned

  datatype State = State(
    g: Guarded, listening: bool, wg: int,
    accept: AcceptPC, clients: seq<Client>, closers: seq<CloserPC>)

  predicate Initial(s: State) {
    && s.g == Guarded(false, {}, false) && s.listening && s.wg == 1 && s.accept == Accepting
    && (forall c :: 0 <= c < |s.clients| ==> s.clients[c] == Client(false, false, false, NotStarted))
    && (forall t :: 0 <= t < |s.closers| ==> s.closers[t] == NotCalled)
  }

  datatype Event =
    | AcceptConn(c: nat)
    | AcceptError
    | AcceptLock
    | AcceptRefuse
    | AcceptStart
    | AcceptDone
    | DialFailed(c: nat)
    | DialDone(c: nat)
    | CopyDone(c: nat)
    | Remove(c: nat)
    | CloseLocal(c: nat)
    | SpliceDone(c: nat)
    | CloseCall(t: nat)
    | CloseListener(t: nat)
    | CloseOne(t: nat, c: nat)
    | CloseListed(t: nat)
    | CloseWaited(t: nat)

  predicate Enabled(s: State, ev: Event) {
    match ev
    case AcceptConn(c) => s.accept == Accepting && s.listening && c < |s.clients| && !s.clients[c].accepted
    case AcceptError => s.accept == Accepting
    case AcceptLock => s.accept.Got? && s.accept.c < |s.clients|
    case AcceptRefuse => s.accept.Refusing? && s.accept.c < |s.clients|
    case AcceptStart => s.accept.Starting? && s.accept.c < |s.clients|
    case AcceptDone => s.accept == Leaving
    case DialFailed(c) => c < |s.clients| && s.clients[c].pc == Dialing
    case DialDone(c) => c < |s.clients| && s.clients[c].pc == Dialing
    case CopyDone(c) => c < |s.clients| && s.clients[c].pc == Copying
    case Remove(c) => c < |s.clients| && s.clients[c].pc == RemoteDown
    case CloseLocal(c) => c < |s.clients| && s.clients[c].pc == Removed
    case SpliceDone(c) => c < |s.clients| && s.clients[c].pc == LocalDown
    case CloseCall(t) => t < |s.closers| && s.closers[t] == NotCalled
    case CloseListener(t) => t < |s.closers| && s.closers[t].Locked?
    case CloseOne(t, c) => t < |s.closers| && c < |s.clients| && s.closers[t].Closing? && c in s.closers[t].todo
    case CloseListed(t) => t < |s.closers| && s.closers[t] == Closing({})
    case CloseWaited(t) => t < |s.closers| && s.closers[t] == WaitingGroup && s.wg == 0
  }

  function SetClient(s: State, c: nat, x: Client): State
    requires c < |s.clients|
  {
    s.(clients := s.clients[c := x])
  }

  function SetCloser(s: State, t: nat, x: CloserPC): State
    requires t < |s.closers|
  {
    s.(closers := s.closers[t := x])
  }

  function Apply(s: State, ev: Event): State
    requires Enabled(s, ev)
  {
    match ev
    case AcceptConn(c) => SetClient(s, c, s.clients[c].(accepted := true, open := true)).(accept := Got(c))
    case AcceptError => s.(accept := Leaving)
    case AcceptLock =>
      var c := s.accept.c;
      s.(accept := if s.g.closed then Refusing(c) else Starting(c), g := AdmitSection(s.g, c))
    case AcceptRefuse => SetClient(s, s.accept.c, s.clients[s.accept.c].(open := false)).(accept := Leaving)
    case AcceptStart =>
      SetClient(s, s.accept.c, s.clients[s.accept.c].(pc := Dialing)).(accept := Accepting, wg := s.wg + 1)
    case AcceptDone => s.(accept := AcceptGone, wg := s.wg - 1)
    case DialFailed(c) => SetClient(s, c, s.clients[c].(pc := RemoteDown))
    case DialDone(c) => SetClient(s, c, s.clients[c].(pc := Copying, remote := true))
    case CopyDone(c) => SetClient(s, c, s.clients[c].(pc := RemoteDown, remote := false))
    case Remove(c) => SetClient(s, c, s.clients[c].(pc := Removed)).(g := RemoveSection(s.g, c))
    case CloseLocal(c) => SetClient(s, c, s.clients[c].(pc := LocalDown, open := false))
    case SpliceDone(c) => SetClient(s, c, s.clients[c].(pc := SpliceGone)).(wg := s.wg - 1)
    case CloseCall(t) =>
      SetCloser(s, t, if s.g.closed then WaitingGroup else Locked(s.g.conns)).(g := CloseSection(s.g))
    case CloseListener(t) => SetCloser(s, t, Closing(s.closers[t].todo)).(listening := false)
    case CloseOne(t, c) => SetClient(SetCloser(s, t, Closing(s.closers[t].todo - {c})), c, s.clients[c].(open := false))
    case CloseListed(t) => SetCloser(s, t, WaitingGroup)
    case CloseWaited(t) => SetCloser(s, t, Returned)
  }

  /** A goroutine that has been counted and has not called Done. */
  predicate Counted(pc: SplicePC) { pc != NotStarted && pc != SpliceGone }

  function Live(clients: seq<Client>): (n: nat) {
    if clients == [] then 0 else Live(clients[..|clients| - 1]) + if Counted(clients[|clients| - 1].pc) then 1 else 0
  }

  lemma {:induction false} LiveUpdate(clients: seq<Client>, c: nat, x: Client)
    requires c < |clients|
    ensures Live(clients[c := x]) ==
            Live(clients) - (if Counted(clients[c].pc) then 1 else 0) + (if Counted(x.pc) then 1 else 0)
  {
    var n := |clients| - 1;
    if c < n {
      assert clients[c := x][..n] == clients[..n][c := x];
      LiveUpdate(clients[..n], c, x);
    } else {
      assert clients[c := x][..n] == clients[..n];
    }
  }

  lemma {:induction false} LiveNone(clients: seq<Client>, c: nat)
    requires c < |clients| && Live(clients) == 0
    ensures !Counted(clients[c].pc)
  {
    if c < |clients| - 1 {
      LiveNone(clients[..|clients| - 1], c);
    }
  }

  /** The loop owns a client from Accept until its goroutine is started or it
      is refused. */
  predicate HeldByAccept(s: State, c: nat) {
    match s.accept
    case Got(x) => x == c
    case Refusing(x) => x == c
    case Starting(x) => x == c
    case _ => false
  }

  ghost predicate ClientOk(s: State, c: nat)
    requires c < |s.clients|
  {
    var x := s.clients[c];
    && (x.open ==> x.accepted)
    && (x.pc != NotStarted ==> x.accepted)
    && (HeldByAccept(s, c) ==> x.accepted && x.pc == NotStarted)
    && (x.open ==> HeldByAccept(s, c) || (Counted(x.pc) && x.pc != LocalDown))
    && (x.remote ==> x.pc == Copying)
  }

  ghost predicate Inv(s: State) {
    && (forall c :: 0 <= c < |s.clients| ==> ClientOk(s, c))
    && s.wg == Live(s.clients) + (if s.accept == AcceptGone then 0 else 1)
    && (s.g.closed ==> s.g.cancelled)
    && (forall t :: 0 <= t < |s.closers| && s.closers[t] != NotCalled ==> s.g.closed)
    && (forall t :: 0 <= t < |s.closers| && s.closers[t] == Returned ==> s.wg == 0)
  }

  lemma {:induction false} LiveStart(clients: seq<Client>)
    requires forall c :: 0 <= c < |clients| ==> clients[c].pc == NotStarted
    ensures Live(clients) == 0
  {
    if clients != [] {
      LiveStart(clients[..|clients| - 1]);
    }
  }

  lemma InitialInv(s: State)
    requires Initial(s)
    ensures Inv(s)
  {
    LiveStart(s.clients);
  }

  /** The client an event is about, if any. */
  function Subject(s: State, ev: Event): int
    requires Enabled(s, ev)
  {
    match ev
    case AcceptConn(c) => c
    case AcceptLock => s.accept.c
    case AcceptRefuse => s.accept.c
    case AcceptStart => s.accept.c
    case DialFailed(c) => c
    case DialDone(c) => c
    case CopyDone(c) => c
    case Remove(c) => c
    case CloseLocal(c) => c
    case SpliceDone(c) => c
    case CloseOne(_, c) => c
    case _ => -1
  }

  lemma ClientsStep(s: State, ev: Event)
    requires Inv(s) && Enabled(s, ev)
    ensures forall c :: 0 <= c < |s.clients| ==> ClientOk(Apply(s, ev), c)
  {
    hide Live;
    var n := Apply(s, ev);
    forall c | 0 <= c < |s.clients|
      ensures ClientOk(n, c)
    {
      assert ClientOk(s, c);
    }
  }

  lemma WaitGroupStep(s: State, ev: Event)
    requires Inv(s) && Enabled(s, ev)
    ensures var n := Apply(s, ev); n.wg == Live(n.clients) + (if n.accept == AcceptGone then 0 else 1)
    ensures s.wg == 0 ==> Apply(s, ev).wg == 0
  {
    hide Live;
    var c, n := Subject(s, ev), Apply(s, ev);
    if c >= 0 {
      assert ClientOk(s, c);
      LiveUpdate(s.clients, c, n.clients[c]);
      assert s.clients[c := s.clients[c]] == s.clients;
      assert n.clients == s.clients[c := n.clients[c]];
      if s.wg == 0 { LiveNone(s.clients, c); }
    }
  }

  lemma StepInv(s: State, ev: Event)
    requires Inv(s) && Enabled(s, ev)
    ensures Inv(Apply(s, ev))
  {
    hide Live, ClientOk;
    ClientsStep(s, ev);
    WaitGroupStep(s, ev);
  }

  /** With the wait group at zero nothing runs any more. */
  lemma Quiet(s: State)
    requires Inv(s) && s.wg == 0
    ensures s.accept == AcceptGone
    ensures forall c :: 0 <= c < |s.clients| ==>
              var x := s.clients[c]; !Counted(x.pc) && !x.open && !x.remote
  {
    forall c | 0 <= c < |s.clients|
      ensures !Counted(s.clients[c].pc) && !s.clients[c].open && !s.clients[c].remote
    {
      LiveNone(s.clients, c);
      assert ClientOk(s, c);
    }
  }

  ghost predicate IsRun(run: seq<State>, events: seq<Event>) {
    && |run| == |events| + 1 && Initial(run[0])
    && forall k :: 0 <= k < |events| ==> Enabled(run[k], events[k]) && run[k + 1] == Apply(run[k], events[k])
  }

  lemma {:induction false} RunInv(run: seq<State>, events: seq<Event>, k: nat)
    requires IsRun(run, events) && k < |run|
    ensures Inv(run[k])
  {
    hide Inv, Apply, Enabled;
    if k == 0 {
      InitialInv(run[0]);
    } else {
      RunInv(run, events, k - 1);
      StepInv(run[k - 1], events[k - 1]);
    }
  }

  /** Once Forward.Close has returned, every accepted connection is closed, so is
      every remote end, the accept loop is gone and no splice goroutine
      remains. */
  lemma CloseTearsDown(run: seq<State>, events: seq<Event>, k: nat, t: nat)
    requires IsRun(run, events) && k < |run| && t < |run[k].closers| && run[k].closers[t] == Returned
    ensures run[k].g.closed && run[k].g.cancelled && run[k].accept == AcceptGone && run[k].wg == 0
    ensures forall c :: 0 <= c < |run[k].clients| ==>
              var x := run[k].clients[c]; !Counted(x.pc) && !x.open && !x.remote
  {
    RunInv(run, events, k);
    Quiet(run[k]);
  }

  /** The wait group is never counted up from zero, where a waiter may already
      have been let go. */
  lemma NeverCountedFromZero(run: seq<State>, events: seq<Event>, k: nat)
    requires IsRun(run, events) && k < |events| && events[k] == AcceptStart
    ensures run[k].wg >= 1 && run[k + 1].wg == run[k].wg + 1
  {
    RunInv(run, events, k);
  }
}
