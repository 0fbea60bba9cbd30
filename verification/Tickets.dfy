/** The ticket program: threads draw tickets under a mutex and print them in turn. A step is one step of
    one thread; loads and stores of the shared counters are separate steps. */
module Tickets {
  import opened Wrappers

  /** Where a thread stands. Names in -Lock wait for the mutex. */
  datatype Pc =
    | GetLock | GetLoad | GetStore | GetUnlock | Test
    | AwaitLock | Check | Waiting | WakeLock
    | Printing | AdvanceUnlock | AdvanceLoad | AdvanceStore | Broadcast
    | Finished

  /** read is the value last loaded from a shared counter. */
  datatype Thread = Thread(pc: Pc, ticket: int, read: int)

  datatype State = State(threads: seq<Thread>, locked: bool, nextTicket: int, actualTicket: int, log: seq<int>)

  function Init(n: nat): State {
    State(seq(n, _ => Thread(GetLock, -1, 0)), false, -1, 0, [])
  }

  predicate Enabled(s: State, i: nat) {
    && i < |s.threads| && !s.threads[i].pc.Finished?
    && (s.threads[i].pc.GetLock? || s.threads[i].pc.AwaitLock? || s.threads[i].pc.WakeLock? ==> !s.locked)
  }

  /** The step of thread i, with m pass-throughs. A waiting thread may wake at any time, whether or not
      it was signalled. */
  function Next(m: int, s: State, i: nat): State
    requires Enabled(s, i)
  {
    var t := s.threads[i];
    match t.pc
    case GetLock => s.(threads := s.threads[i := t.(pc := GetLoad)], locked := true)
    case GetLoad => s.(threads := s.threads[i := t.(pc := GetStore, read := s.nextTicket)])
    case GetStore => s.(threads := s.threads[i := t.(pc := GetUnlock, ticket := t.read + 1)], nextTicket := t.read + 1)
    case GetUnlock => s.(threads := s.threads[i := t.(pc := Test)], locked := false)
    case Test => s.(threads := s.threads[i := t.(pc := if t.ticket < m then AwaitLock else Finished)])
    case AwaitLock => s.(threads := s.threads[i := t.(pc := Check)], locked := true)
    case Check =>
      if t.ticket != s.actualTicket then s.(threads := s.threads[i := t.(pc := Waiting)], locked := false)
      else s.(threads := s.threads[i := t.(pc := Printing)])
    case Waiting => s.(threads := s.threads[i := t.(pc := WakeLock)])
    case WakeLock => s.(threads := s.threads[i := t.(pc := Check)], locked := true)
    case Printing => s.(threads := s.threads[i := t.(pc := AdvanceUnlock)], log := s.log + [t.ticket])
    case AdvanceUnlock => s.(threads := s.threads[i := t.(pc := AdvanceLoad)], locked := false)
    case AdvanceLoad => s.(threads := s.threads[i := t.(pc := AdvanceStore, read := s.actualTicket)])
    case AdvanceStore => s.(threads := s.threads[i := t.(pc := Broadcast)], actualTicket := t.read + 1)
    case Broadcast => s.(threads := s.threads[i := t.(pc := GetLock)])
    case Finished => s
  }

  function Run(n: nat, m: int, schedule: seq<nat>): Option<State> {
    if schedule == [] then Some(Init(n))
    else
      match Run(n, m, schedule[..|schedule| - 1])
      case None => None
      case Some(r) =>
        var i := schedule[|schedule| - 1];
        if Enabled(r, i) then Some(Next(m, r, i)) else None
  }

  // ----- the invariant -----

  predicate Holds(pc: Pc) {
    pc.GetLoad? || pc.GetStore? || pc.GetUnlock? || pc.Check? || pc.Printing? || pc.AdvanceUnlock?
  }

  /** The thread has a ticket that the counter has not passed. */
  predicate Active(pc: Pc) {
    || pc.GetUnlock? || pc.Test? || pc.AwaitLock? || pc.Check? || pc.Waiting? || pc.WakeLock?
    || pc.Printing? || InWindow(pc)
  }

  /** The thread has printed and has not yet let the next one in; only its first state holds the mutex. */
  predicate InWindow(pc: Pc) {
    pc.AdvanceUnlock? || pc.AdvanceLoad? || pc.AdvanceStore?
  }

  predicate ThreadOk(m: int, s: State, t: Thread) {
    && t.ticket <= s.nextTicket
    && (t.pc.GetStore? ==> t.read == s.nextTicket)
    && (t.pc.AdvanceStore? ==> t.read == s.actualTicket)
    && (Active(t.pc) ==> t.ticket >= s.actualTicket)
    && (Active(t.pc) && !t.pc.GetUnlock? && !t.pc.Test? ==> t.ticket < m)
    && (t.pc.Printing? || InWindow(t.pc) ==> t.ticket == s.actualTicket)
    && (t.pc.Finished? ==> t.ticket >= m)
  }

  ghost predicate Threads(m: int, s: State) {
    s.actualTicket <= s.nextTicket + 1 && forall i :: 0 <= i < |s.threads| ==> ThreadOk(m, s, s.threads[i])
  }

  /** The mutex has one holder when locked and none otherwise. */
  ghost predicate MutexOk(s: State) {
    && (forall i, j :: 0 <= i < |s.threads| && 0 <= j < |s.threads| && Holds(s.threads[i].pc) && Holds(s.threads[j].pc) ==> i == j)
    && (s.locked <==> SomeoneHolds(s))
  }

  ghost predicate SomeoneHolds(s: State) {
    exists i :: 0 <= i < |s.threads| && Holds(s.threads[i].pc)
  }

  ghost predicate Distinct(s: State) {
    forall i, j ::
      (0 <= i < |s.threads| && 0 <= j < |s.threads| && Active(s.threads[i].pc) && Active(s.threads[j].pc) &&
       s.threads[i].ticket == s.threads[j].ticket) ==> i == j
  }

  ghost predicate SomeoneHas(s: State, ticket: int) {
    exists i :: 0 <= i < |s.threads| && Active(s.threads[i].pc) && s.threads[i].ticket == ticket
  }

  ghost predicate SomeoneInWindow(s: State) {
    exists i :: 0 <= i < |s.threads| && InWindow(s.threads[i].pc)
  }

  /** Every ticket that was drawn and can be printed is past or in somebody's hands. */
  ghost predicate NoneLost(m: int, s: State) {
    forall ticket :: s.actualTicket <= ticket <= s.nextTicket && ticket < m ==> SomeoneHas(s, ticket)
  }

  function Prefix(n: int): seq<int> {
    seq(if n < 0 then 0 else n, k => k)
  }

  /** What is printed: all tickets before the counter, and the counter's own once its owner has printed. */
  ghost predicate LogOk(m: int, s: State) {
    && s.actualTicket >= 0
    && s.log == Prefix(if SomeoneInWindow(s) then s.actualTicket + 1 else s.actualTicket)
    && (s.log == [] || |s.log| <= m)
  }

  ghost predicate Inv(m: int, s: State) {
    Threads(m, s) && MutexOk(s) && Distinct(s) && NoneLost(m, s) && LogOk(m, s)
  }

  // ----- one step -----

  lemma StepThreads(m: int, s: State, i: nat)
    requires Inv(m, s) && Enabled(s, i)
    ensures Threads(m, Next(m, s, i))
  {
    hide NoneLost, LogOk;
    var s' := Next(m, s, i);
    forall j | 0 <= j < |s.threads|
      ensures ThreadOk(m, s', s'.threads[j])
    {
      assert ThreadOk(m, s, s.threads[j]) && ThreadOk(m, s, s.threads[i]);
    }
  }

  lemma StepMutex(m: int, s: State, i: nat)
    requires Inv(m, s) && Enabled(s, i)
    ensures MutexOk(Next(m, s, i))
  {
    hide NoneLost, LogOk, Distinct, Threads;
    var s' := Next(m, s, i);
    assert forall j :: 0 <= j < |s.threads| && j != i ==> s'.threads[j] == s.threads[j];
    assert Holds(s'.threads[i].pc) ==> SomeoneHolds(s');
    assert Holds(s.threads[i].pc) ==> SomeoneHolds(s);
    if s.locked && !Holds(s.threads[i].pc) {
      var j :| 0 <= j < |s.threads| && Holds(s.threads[j].pc);
      assert Holds(s'.threads[j].pc);
    }
  }

  /** Only drawing a ticket makes a thread active, and that ticket is new. */
  lemma StepActive(m: int, s: State, i: nat)
    requires Inv(m, s) && Enabled(s, i)
    ensures var s' := Next(m, s, i);
      var t, t' := s.threads[i], s'.threads[i];
      && s'.threads == s.threads[i := t']
      && (Active(t'.pc) ==> (Active(t.pc) && t'.ticket == t.ticket) || t'.ticket == s.nextTicket + 1)
  {
    hide NoneLost, LogOk, MutexOk, Distinct;
  }

  lemma StepDistinct(m: int, s: State, i: nat)
    requires Inv(m, s) && Enabled(s, i)
    ensures Distinct(Next(m, s, i))
  {
    StepActive(m, s, i);
    hide NoneLost, LogOk, MutexOk, Next, Active, Enabled;
  }

  lemma StepNoneLost(m: int, s: State, i: nat)
    requires Inv(m, s) && Enabled(s, i)
    ensures NoneLost(m, Next(m, s, i))
  {
    hide LogOk, MutexOk, Distinct;
    var s' := Next(m, s, i);
    forall ticket | s'.actualTicket <= ticket <= s'.nextTicket && ticket < m
      ensures SomeoneHas(s', ticket)
    {
      if ticket <= s.nextTicket {
        assert SomeoneHas(s, ticket);
        var j :| 0 <= j < |s.threads| && Active(s.threads[j].pc) && s.threads[j].ticket == ticket;
        assert Active(s'.threads[j].pc) && s'.threads[j].ticket == ticket;
      } else {
        assert Active(s'.threads[i].pc) && s'.threads[i].ticket == ticket;
      }
    }
  }

  /** Only the step that prints and the step that advances the counter change who is in the window. */
  lemma StepWindow(m: int, s: State, i: nat)
    requires Inv(m, s) && Enabled(s, i)
    ensures var s', pc := Next(m, s, i), s.threads[i].pc;
      if pc.Printing? then !SomeoneInWindow(s) && SomeoneInWindow(s')
      else if pc.AdvanceStore? then SomeoneInWindow(s) && !SomeoneInWindow(s')
      else SomeoneInWindow(s') == SomeoneInWindow(s)
  {
    hide NoneLost, LogOk, MutexOk;
    var s' := Next(m, s, i);
    assert forall j :: 0 <= j < |s.threads| && j != i ==> s'.threads[j] == s.threads[j];
    if s.threads[i].pc.Printing? {
      assert InWindow(s'.threads[i].pc);
    } else if s.threads[i].pc.AdvanceStore? {
      assert InWindow(s.threads[i].pc);
    } else if SomeoneInWindow(s) {
      var j :| 0 <= j < |s.threads| && InWindow(s.threads[j].pc);
      assert InWindow(s'.threads[j].pc);
    }
  }

  lemma StepLog(m: int, s: State, i: nat)
    requires Inv(m, s) && Enabled(s, i)
    ensures LogOk(m, Next(m, s, i))
  {
    StepWindow(m, s, i);
    hide NoneLost, MutexOk, Distinct, SomeoneInWindow;
  }

  lemma StepInv(m: int, s: State, i: nat)
    requires Inv(m, s) && Enabled(s, i)
    ensures Inv(m, Next(m, s, i))
  {
    hide Threads, NoneLost, LogOk, MutexOk, Distinct, Next;
    StepThreads(m, s, i);
    StepMutex(m, s, i);
    StepDistinct(m, s, i);
    StepNoneLost(m, s, i);
    StepLog(m, s, i);
  }

  lemma {:induction false} RunInv(n: nat, m: int, schedule: seq<nat>)
    requires Run(n, m, schedule).Some?
    ensures Inv(m, Run(n, m, schedule).value) && |Run(n, m, schedule).value.threads| == n
  {
    if schedule == [] {
      assert !SomeoneInWindow(Init(n)) && !SomeoneHolds(Init(n));
    } else {
      hide Inv;
      RunInv(n, m, schedule[..|schedule| - 1]);
      StepInv(m, Run(n, m, schedule[..|schedule| - 1]).value, schedule[|schedule| - 1]);
    }
  }

  // ----- what every run keeps -----

  predicate InSection(pc: Pc) {
    pc.Printing? || pc.AdvanceUnlock?
  }

  /** Safety: at most one thread is between its wait and the unlock, at most one between the unlock and the
      new value of the counter, not even one of each; no two threads hold the same ticket; what is printed
      is 0, 1, 2 and so on, and never m. */
  lemma TicketSafety(n: nat, m: int, schedule: seq<nat>, i: nat, j: nat)
    requires Run(n, m, schedule).Some? && i < n && j < n
    ensures var s := Run(n, m, schedule).value;
      && |s.threads| == n
      && ((InSection(s.threads[i].pc) || InWindow(s.threads[i].pc)) && (InSection(s.threads[j].pc) || InWindow(s.threads[j].pc)) ==> i == j)
      && (Active(s.threads[i].pc) && Active(s.threads[j].pc) && s.threads[i].ticket == s.threads[j].ticket ==> i == j)
      && s.log == Prefix(|s.log|) && (s.log == [] || |s.log| <= m)
  {
    hide Run, NoneLost, MutexOk;
    RunInv(n, m, schedule);
  }

  /** If all threads, at least one, have returned, the tickets 0 to m - 1 were printed, each once, in order. */
  lemma AllPrinted(n: nat, m: int, schedule: seq<nat>)
    requires Run(n, m, schedule).Some? && n > 0 && m >= 0
    requires forall t :: t in Run(n, m, schedule).value.threads ==> t.pc.Finished?
    ensures Run(n, m, schedule).value.log == Prefix(m)
  {
    hide Run, MutexOk, Distinct;
    RunInv(n, m, schedule);
    var s := Run(n, m, schedule).value;
    assert s.threads[0] in s.threads;
    NobodyHas(s, s.actualTicket);
  }

  lemma NobodyHas(s: State, ticket: int)
    requires forall t :: t in s.threads ==> t.pc.Finished?
    ensures !SomeoneHas(s, ticket) && !SomeoneInWindow(s)
  {
    assert forall i :: 0 <= i < |s.threads| ==> s.threads[i] in s.threads;
  }
}
