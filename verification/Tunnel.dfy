/** Teardown of an SSH tunnel (internal/sshtunnel/tunnel.go). Any number of
    dials, owners closing their connections and calls to Close run at once; an
    event is one mutex section or one action between two of them. */
module Tunnels {

  // ---------- the mutex sections ----------

  /** What the mutex guards. */
  datatype Guarded = Guarded(closed: bool, conns: set<nat>)

  /** The second section of DialContext. */
  function RegisterSection(g: Guarded, d: nat): Guarded {
    if g.closed then g else g.(conns := g.conns + {d})
  }

  /** The first section of Close. */
  function CloseSection(g: Guarded): Guarded {
    if g.closed then g else Guarded(true, {})
  }

  /** The section of a connection's own Close. */
  function ForgetSection(g: Guarded, d: nat): Guarded { g.(conns := g.conns - {d}) }

  /** The object, one method a section. */
  class Tunnel {
    var closed: bool
    var conns: set<nat>

    ghost function View(): Guarded
      reads this
    {
      Guarded(closed, conns)
    }

    constructor ()
      ensures View() == Guarded(false, {})
    {
      closed, conns := false, {};
    }

    /** The first section of DialContext. */
    method CheckOpen() returns (ok: bool)
      ensures ok == !closed
    {
      ok := !closed;
    }

    method Register(d: nat) returns (ok: bool)
      modifies this
      ensures View() == RegisterSection(old(View()), d) && ok == !old(closed)
    {
      if closed {
        return false;
      }
      conns := conns + {d};
      return true;
    }

    method BeginClose() returns (first: bool, snapshot: set<nat>)
      modifies this
      ensures View() == CloseSection(old(View())) && first == !old(closed)
      ensures first ==> snapshot == old(conns)
    {
      snapshot := {};
      if closed {
        return false, snapshot;
      }
      closed := true;
      snapshot := conns;
      conns := {};
      return true, snapshot;
    }

    method Forget(d: nat)
      modifies this
      ensures View() == ForgetSection(old(View()), d)
    {
      conns := conns - {d};
    }
  }

  // ---------- the protocol ----------

  /** Where a DialContext stands: not called, past the first check, with an
      open connection, having lost the race to Close, returned an error,
      returned the connection. */
  datatype DialPC = Idle | Checked | Dialed | LostRace | Refused | HandedOut

  /** A dial and its connection: whether the connection is open, whether its
      owner's Close has taken it out of the set, and how many calls of its
      owner's Close are past that point. */
  datatype Dial = Dial(pc: DialPC, open: bool, once: bool, inClose: nat)

  /** Where a call to Close stands: `todo` is what is left of its snapshot. */
  datatype CloserPC = NotCalled | Waiting | Closing(todo: set<nat>) | ClientDown | Returned

  datatype State = State(
    g: Guarded, dials: seq<Dial>, closers: seq<CloserPC>,
    clientUp: bool, winner: int, signals: nat)

  const NoWinner := -1

  predicate Initial(s: State) {
    && s.g == Guarded(false, {}) && s.clientUp && s.winner == NoWinner && s.signals == 0
    && (forall d :: 0 <= d < |s.dials| ==> s.dials[d] == Dial(Idle, false, false, 0))
    && (forall t :: 0 <= t < |s.closers| ==> s.closers[t] == NotCalled)
  }

  datatype Event =
    | DialCheck(d: nat)
    | DialFail(d: nat)
    | DialOpen(d: nat)
    | DialRegister(d: nat)
    | DialDrop(d: nat)
    | OwnerClose(d: nat)
    | OwnerDone(d: nat)
    | CloseCall(t: nat)
    | CloseOne(t: nat, d: nat)
    | CloseClient(t: nat)
    | CloseSignal(t: nat)
    | CloseWait(t: nat)

  predicate Enabled(s: State, ev: Event) {
    match ev
    case DialCheck(d) => d < |s.dials| && s.dials[d].pc == Idle
    case DialFail(d) => d < |s.dials| && s.dials[d].pc == Checked
    case DialOpen(d) => d < |s.dials| && s.dials[d].pc == Checked
    case DialRegister(d) => d < |s.dials| && s.dials[d].pc == Dialed
    case DialDrop(d) => d < |s.dials| && s.dials[d].pc == LostRace
    case OwnerClose(d) => d < |s.dials| && s.dials[d].pc == HandedOut
    case OwnerDone(d) => d < |s.dials| && s.dials[d].inClose > 0
    case CloseCall(t) => t < |s.closers| && s.closers[t] == NotCalled
    case CloseOne(t, d) => t < |s.closers| && d < |s.dials| && s.closers[t].Closing? && d in s.closers[t].todo
    case CloseClient(t) => t < |s.closers| && s.closers[t] == Closing({})
    case CloseSignal(t) => t < |s.closers| && s.closers[t] == ClientDown
    case CloseWait(t) => t < |s.closers| && s.closers[t] == Waiting && s.signals > 0
  }

  function SetDial(s: State, d: nat, x: Dial): State
    requires d < |s.dials|
  {
    s.(dials := s.dials[d := x])
  }

  function SetCloser(s: State, t: nat, x: CloserPC): State
    requires t < |s.closers|
  {
    s.(closers := s.closers[t := x])
  }

  function Apply(s: State, ev: Event): State
    requires Enabled(s, ev)
  {
    match ev
    case DialCheck(d) => SetDial(s, d, s.dials[d].(pc := if s.g.closed then Refused else Checked))
    case DialFail(d) => SetDial(s, d, s.dials[d].(pc := Refused))
    case DialOpen(d) => SetDial(s, d, s.dials[d].(pc := Dialed, open := true))
    case DialRegister(d) =>
      SetDial(s, d, s.dials[d].(pc := if s.g.closed then LostRace else HandedOut)).(g := RegisterSection(s.g, d))
    case DialDrop(d) => SetDial(s, d, s.dials[d].(pc := Refused, open := false))
    case OwnerClose(d) =>
      var x := s.dials[d];
      SetDial(s, d, x.(once := true, inClose := x.inClose + 1)).(g := if x.once then s.g else ForgetSection(s.g, d))
    case OwnerDone(d) => SetDial(s, d, s.dials[d].(open := false, inClose := s.dials[d].inClose - 1))
    case CloseCall(t) =>
      if s.g.closed then SetCloser(s, t, Waiting)
      else SetCloser(s, t, Closing(s.g.conns)).(g := CloseSection(s.g), winner := t)
    case CloseOne(t, d) =>
      SetDial(SetCloser(s, t, Closing(s.closers[t].todo - {d})), d, s.dials[d].(open := false))
    case CloseClient(t) => SetCloser(s, t, ClientDown).(clientUp := false)
    case CloseSignal(t) => SetCloser(s, t, Returned).(signals := s.signals + 1)
    case CloseWait(t) => SetCloser(s, t, Returned)
  }

  // ---------- the invariant ----------

  /** Past its Close's first section, the one call that does the work. */
  predicate Working(pc: CloserPC) { pc.Closing? || pc.ClientDown? }

  ghost predicate DialOk(s: State, d: nat)
    requires d < |s.dials|
  {
    var x := s.dials[d];
    && (x.open ==> x.pc == Dialed || x.pc == LostRace || x.pc == HandedOut)
    && (x.once || x.inClose > 0 ==> x.pc == HandedOut && x.once)
    && (x.once && x.inClose == 0 ==> !x.open)
    && (d in s.g.conns ==> x.pc == HandedOut)
    // Every connection that is out is in the set, in its owner's hands, in the
    // snapshot of the Close that is at work, or closed.
    && (x.pc == HandedOut && !x.once && d !in s.g.conns && x.open ==>
        0 <= s.winner < |s.closers| && s.closers[s.winner].Closing? && d in s.closers[s.winner].todo)
  }

  ghost predicate CloserOk(s: State, t: nat)
    requires t < |s.closers|
  {
    var pc := s.closers[t];
    && (pc != NotCalled ==> s.g.closed)
    && (Working(pc) ==> s.winner == t && s.signals == 0)
    && (pc == Returned ==> s.signals == 1)
    && (pc.Closing? ==> forall d :: d in pc.todo ==> d < |s.dials| && s.dials[d].pc == HandedOut)
    && (pc == ClientDown ==> !s.clientUp)
  }

  ghost predicate Inv(s: State) {
    && (forall d :: 0 <= d < |s.dials| ==> DialOk(s, d))
    && (forall t :: 0 <= t < |s.closers| ==> CloserOk(s, t))
    && (forall d :: d in s.g.conns ==> d < |s.dials|)
    && (s.g.closed ==>
        s.g.conns == {} && 0 <= s.winner < |s.closers| &&
        (Working(s.closers[s.winner]) || s.closers[s.winner] == Returned))
    && (!s.g.closed ==> s.winner == NoWinner && s.signals == 0)
    && (s.signals > 0 ==> s.signals == 1 && !s.clientUp && s.closers[s.winner] == Returned)
  }

  lemma InitialInv(s: State)
    requires Initial(s)
    ensures Inv(s)
  {
  }

  lemma DialStepInv(s: State, ev: Event)
    requires Inv(s) && Enabled(s, ev)
    requires ev.DialCheck? || ev.DialFail? || ev.DialOpen? || ev.DialRegister? || ev.DialDrop? || ev.OwnerClose? || ev.OwnerDone?
    ensures Inv(Apply(s, ev))
  {
    var n := Apply(s, ev);
    forall d | 0 <= d < |n.dials|
      ensures DialOk(n, d)
    {
      assert DialOk(s, d);
    }
    forall t | 0 <= t < |n.closers|
      ensures CloserOk(n, t)
    {
      assert CloserOk(s, t);
    }
  }

  lemma CloseStepInv(s: State, ev: Event)
    requires Inv(s) && Enabled(s, ev)
    requires ev.CloseCall? || ev.CloseOne? || ev.CloseClient? || ev.CloseSignal? || ev.CloseWait?
    ensures Inv(Apply(s, ev))
  {
    var n := Apply(s, ev);
    assert CloserOk(s, ev.t);
    assert forall d :: d in s.g.conns ==> DialOk(s, d);
    forall t | 0 <= t < |n.closers|
      ensures CloserOk(n, t)
    {
      assert CloserOk(s, t);
    }
    forall d | 0 <= d < |n.dials|
      ensures DialOk(n, d)
    {
      assert DialOk(s, d);
    }
  }

  // ---------- runs ----------

  /** A run: the states an interleaving goes through. */
  ghost predicate IsRun(run: seq<State>, events: seq<Event>) {
    && |run| == |events| + 1 && Initial(run[0])
    && forall k :: 0 <= k < |events| ==> Enabled(run[k], events[k]) && run[k + 1] == Apply(run[k], events[k])
  }

  lemma {:induction false} RunInv(run: seq<State>, events: seq<Event>, k: nat)
    requires IsRun(run, events) && k < |run|
    ensures Inv(run[k])
  {
    hide Inv, Apply, Enabled;
    if k == 0 {
      InitialInv(run[0]);
    } else {
      RunInv(run, events, k - 1);
      var ev := events[k - 1];
      if ev.CloseCall? || ev.CloseOne? || ev.CloseClient? || ev.CloseSignal? || ev.CloseWait? {
        CloseStepInv(run[k - 1], ev);
      } else {
        DialStepInv(run[k - 1], ev);
      }
    }
  }

  /** Once any Close has returned, every connection that was handed out is
      closed or inside its own owner's Close, the client is down, and closeCh
      has been closed exactly once. */
  lemma CloseTearsDown(run: seq<State>, events: seq<Event>, k: nat, t: nat)
    requires IsRun(run, events) && k < |run| && t < |run[k].closers| && run[k].closers[t] == Returned
    ensures run[k].signals == 1 && !run[k].clientUp && run[k].g == Guarded(true, {})
    ensures forall d :: 0 <= d < |run[k].dials| && run[k].dials[d].pc == HandedOut ==>
              !run[k].dials[d].open || run[k].dials[d].inClose > 0
  {
    RunInv(run, events, k);
    var s := run[k];
    assert CloserOk(s, t);
    forall d | 0 <= d < |s.dials| && s.dials[d].pc == HandedOut
      ensures !s.dials[d].open || s.dials[d].inClose > 0
    {
      assert DialOk(s, d);
    }
  }

  /** closeCh is never closed twice. */
  lemma SignalledOnce(run: seq<State>, events: seq<Event>, k: nat)
    requires IsRun(run, events) && k < |run|
    ensures run[k].signals <= 1
  {
    RunInv(run, events, k);
  }

  /** A dial whose connection came too late is not handed out, and a dial that
      has returned an error has nothing open. */
  lemma LateDialDropped(run: seq<State>, events: seq<Event>, k: nat, d: nat)
    requires IsRun(run, events) && k < |run| && d < |run[k].dials|
    ensures run[k].dials[d].pc == Refused ==> !run[k].dials[d].open
    ensures k < |events| && events[k] == DialRegister(d) && run[k].g.closed ==> run[k + 1].dials[d].pc == LostRace
  {
    RunInv(run, events, k);
    assert DialOk(run[k], d);
  }

  /** Closed is final, and nothing is handed out after it. */
  lemma {:induction false} ClosedIsFinal(run: seq<State>, events: seq<Event>, a: nat, b: nat, d: nat)
    requires IsRun(run, events) && a <= b < |run| && run[a].g.closed && d < |run[a].dials|
    ensures run[b].g.closed && d < |run[b].dials|
    ensures run[b].dials[d].pc == HandedOut ==> run[a].dials[d].pc == HandedOut
    decreases b - a
  {
    if a < b {
      ClosedIsFinal(run, events, a, b - 1, d);
      assert run[b] == Apply(run[b - 1], events[b - 1]);
    }
  }
}
