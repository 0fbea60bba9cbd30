/** The ticket program can always finish: no state of any run is a dead end, and a run is long only if
    threads keep waking when it is not their turn. */
module Turns {
  import opened Wrappers
  import opened Tickets

  /** The step wakes a thread whose turn it is not. */
  predicate IdleWake(s: State, i: nat) {
    i < |s.threads| && s.threads[i].pc.Waiting? && s.threads[i].ticket != s.actualTicket
  }

  /** Steps until the thread returns or draws its next ticket; a wait lasts one step if nobody wakes in vain. */
  function Rank(m: int, actual: int, t: Thread): nat {
    match t.pc
    case GetUnlock => if t.ticket < m then 18 else 2
    case Test => if t.ticket < m then 17 else 1
    case AwaitLock => 16
    case WakeLock => if t.ticket == actual then 12 else 15
    case Check => if t.ticket == actual then 11 else 14
    case Waiting => 13
    case Printing => 10
    case AdvanceUnlock => 9
    case AdvanceLoad => 8
    case AdvanceStore => 7
    case Broadcast => 6
    case GetLock => 5
    case GetLoad => 4
    case GetStore => 3
    case Finished => 0
  }

  function Ranks(m: int, actual: int, threads: seq<Thread>): nat {
    if threads == [] then 0 else Ranks(m, actual, threads[1..]) + Rank(m, actual, threads[0])
  }

  /** Tickets below m that nobody has drawn. */
  function Left(m: int, s: State): nat {
    if s.nextTicket + 1 < m then m - s.nextTicket - 1 else 0
  }

  function Work(m: int, s: State): nat {
    20 * Left(m, s) + Ranks(m, s.actualTicket, s.threads)
  }

  /** One thread's rank changes by d; those of the others do not rise. */
  lemma {:induction false} RanksChange(m: int, a: int, a': int, ts: seq<Thread>, ts': seq<Thread>, i: nat, d: int)
    requires i < |ts| == |ts'| && Rank(m, a', ts'[i]) <= Rank(m, a, ts[i]) + d
    requires forall j :: 0 <= j < |ts| && j != i ==> Rank(m, a', ts'[j]) <= Rank(m, a, ts[j])
    ensures Ranks(m, a', ts') <= Ranks(m, a, ts) + d
  {
    hide Rank;
    if i > 0 {
      RanksChange(m, a, a', ts[1..], ts'[1..], i - 1, d);
    } else {
      RanksFall(m, a, a', ts[1..], ts'[1..]);
    }
  }

  lemma {:induction false} RanksFall(m: int, a: int, a': int, ts: seq<Thread>, ts': seq<Thread>)
    requires |ts| == |ts'| && forall j :: 0 <= j < |ts| ==> Rank(m, a', ts'[j]) <= Rank(m, a, ts[j])
    ensures Ranks(m, a', ts') <= Ranks(m, a, ts)
  {
    hide Rank;
    if ts != [] { RanksFall(m, a, a', ts[1..], ts'[1..]); }
  }

  /** The counter passes on the turn of the thread that steps, and that of no other. */
  lemma OthersFall(m: int, s: State, i: nat, j: nat)
    requires Inv(m, s) && Enabled(s, i) && j < |s.threads| && j != i
    ensures var s' := Next(m, s, i);
      s'.threads[j] == s.threads[j] && Rank(m, s'.actualTicket, s'.threads[j]) <= Rank(m, s.actualTicket, s.threads[j])
  {
    hide MutexOk, NoneLost, LogOk;
    assert ThreadOk(m, s, s.threads[i]) && ThreadOk(m, s, s.threads[j]);
  }

  lemma OwnChange(m: int, s: State, i: nat)
    requires Inv(m, s) && Enabled(s, i)
    ensures var s' := Next(m, s, i);
      |s'.threads| == |s.threads| &&
      20 * Left(m, s') + Rank(m, s'.actualTicket, s'.threads[i])
      <= 20 * Left(m, s) + Rank(m, s.actualTicket, s.threads[i]) + if IdleWake(s, i) then 2 else -1
  {
    hide MutexOk, NoneLost, LogOk, Distinct;
    assert ThreadOk(m, s, s.threads[i]);
  }

  /** Every step but an idle wake-up takes away work; an idle wake-up adds 2. */
  lemma StepWork(m: int, s: State, i: nat)
    requires Inv(m, s) && Enabled(s, i)
    ensures Work(m, Next(m, s, i)) <= Work(m, s) + if IdleWake(s, i) then 2 else -1
  {
    hide Inv, Enabled, Rank, Left, IdleWake, Next, Ranks;
    var s' := Next(m, s, i);
    OwnChange(m, s, i);
    forall j | 0 <= j < |s.threads| && j != i
      ensures Rank(m, s'.actualTicket, s'.threads[j]) <= Rank(m, s.actualTicket, s.threads[j])
    {
      OthersFall(m, s, i, j);
    }
    var d := 20 * Left(m, s) - 20 * Left(m, s') + if IdleWake(s, i) then 2 else -1;
    assert i < |s.threads| by { EnabledIndex(s, i); }
    RanksChange(m, s.actualTicket, s'.actualTicket, s.threads, s'.threads, i, d);
  }

  lemma EnabledIndex(s: State, i: nat)
    requires Enabled(s, i)
    ensures i < |s.threads|
  {}

  // ----- somebody can go on -----

  predicate AllFinished(s: State) {
    forall t :: t in s.threads ==> t.pc.Finished?
  }

  /** Unless all have returned, somebody can step, and not in vain. */
  lemma SomeoneCan(m: int, s: State) returns (i: nat)
    requires Inv(m, s) && !AllFinished(s)
    ensures Enabled(s, i) && !IdleWake(s, i)
  {
    hide LogOk, Distinct;
    if s.locked {
      assert SomeoneHolds(s);
      i :| 0 <= i < |s.threads| && Holds(s.threads[i].pc);
    } else {
      var t :| t in s.threads && !t.pc.Finished?;
      var k :| 0 <= k < |s.threads| && s.threads[k] == t;
      if IdleWake(s, k) {
        i := NextInTurn(m, s, k);
      } else {
        i := k;
      }
    }
  }

  /** If somebody waits for a later ticket, somebody has the one whose turn it is. */
  lemma NextInTurn(m: int, s: State, k: nat) returns (i: nat)
    requires Inv(m, s) && IdleWake(s, k) && !s.locked
    ensures Enabled(s, i) && !IdleWake(s, i)
  {
    hide LogOk, Distinct, MutexOk;
    assert ThreadOk(m, s, s.threads[k]);
    assert SomeoneHas(s, s.actualTicket);
    i :| 0 <= i < |s.threads| && Active(s.threads[i].pc) && s.threads[i].ticket == s.actualTicket;
  }

  // ----- runs -----

  lemma RunStep(n: nat, m: int, schedule: seq<nat>, i: nat)
    requires Run(n, m, schedule).Some? && Enabled(Run(n, m, schedule).value, i)
    ensures Run(n, m, schedule + [i]) == Some(Next(m, Run(n, m, schedule).value, i))
  {
    hide Next, Enabled;
    assert (schedule + [i])[..|schedule|] == schedule;
  }

  /** From every state of every run all threads can return, by a continuation without idle wake-ups that is
      no longer than the work left. */
  lemma {:induction false} CanFinish(n: nat, m: int, schedule: seq<nat>) returns (rest: seq<nat>)
    requires Run(n, m, schedule).Some?
    ensures Run(n, m, schedule + rest).Some? && AllFinished(Run(n, m, schedule + rest).value)
    ensures |rest| <= Work(m, Run(n, m, schedule).value)
    decreases Work(m, Run(n, m, schedule).value)
  {
    hide Run, Inv, Enabled, Next, Work, AllFinished, IdleWake;
    var s := Run(n, m, schedule).value;
    if AllFinished(s) {
      rest := [];
      assert schedule + rest == schedule;
    } else {
      RunInv(n, m, schedule);
      var i := SomeoneCan(m, s);
      StepWork(m, s, i);
      RunStep(n, m, schedule, i);
      var tail := CanFinish(n, m, schedule + [i]);
      rest := [i] + tail;
      assert schedule + rest == schedule + [i] + tail;
    }
  }

  /** With at least one thread there is a continuation of every run after which 0 to m - 1 are printed and
      all threads have returned. */
  lemma CanPrintAll(n: nat, m: int, schedule: seq<nat>)
    requires Run(n, m, schedule).Some? && n > 0 && m >= 0
    ensures exists rest: seq<nat> ::
      && Run(n, m, schedule + rest).Some? && AllFinished(Run(n, m, schedule + rest).value)
      && Run(n, m, schedule + rest).value.log == Prefix(m)
  {
    hide Run;
    var rest := CanFinish(n, m, schedule);
    AllPrinted(n, m, schedule + rest);
  }

  function IdleWakes(n: nat, m: int, schedule: seq<nat>): nat
    requires Run(n, m, schedule).Some?
  {
    if schedule == [] then 0
    else
      var front, i := schedule[..|schedule| - 1], schedule[|schedule| - 1];
      IdleWakes(n, m, front) + if IdleWake(Run(n, m, front).value, i) then 1 else 0
  }

  lemma {:induction false} WorkDone(n: nat, m: int, schedule: seq<nat>)
    requires Run(n, m, schedule).Some?
    ensures |schedule| + Work(m, Run(n, m, schedule).value) <= Work(m, Init(n)) + 3 * IdleWakes(n, m, schedule)
  {
    hide Next, Enabled, Work, IdleWake, Inv;
    if schedule != [] {
      var front, i := schedule[..|schedule| - 1], schedule[|schedule| - 1];
      WorkDone(n, m, front);
      RunInv(n, m, front);
      StepWork(m, Run(n, m, front).value, i);
    }
  }

  lemma {:induction false} StartRanks(m: int, a: int, threads: seq<Thread>)
    requires forall t :: t in threads ==> t.pc.GetLock?
    ensures Ranks(m, a, threads) == 5 * |threads|
  {
    if threads != [] { StartRanks(m, a, threads[1..]); }
  }

  /** A run of n threads for m tickets that wakes nobody in vain has at most 20 * m + 5 * n steps; every
      idle wake-up costs at most 3 more. */
  lemma StepsBounded(n: nat, m: int, schedule: seq<nat>)
    requires Run(n, m, schedule).Some?
    ensures |schedule| <= 20 * (if m > 0 then m else 0) + 5 * n + 3 * IdleWakes(n, m, schedule)
  {
    hide Run, IdleWakes;
    WorkDone(n, m, schedule);
    StartRanks(m, 0, Init(n).threads);
  }
}
