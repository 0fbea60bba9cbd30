/** What the river-crossing program achieves: every schedule ends, and with p hackers and p serfs it
    ends with everybody across exactly if p is even. */
module Outcome {
  import opened Wrappers
  import opened Fifo
  import opened River
  import opened Ferry
  import opened Tally
  import opened Crossing
  import opened Voyage

  // ----- where processes stand when none can step -----

  /** Waiting on a semaphore at zero, or done. */
  predicate Parked(s: State, p: Proc) {
    || (p.pc.AtMolo? && s.molo == 0)
    || (p.pc.OnPier? && (if p.kind == Hacker then s.hacker == 0 else s.serf == 0))
    || (p.pc.AtBoarding? && s.boarding == 0)
    || (p.pc.AtLanding? && s.landing == 0)
    || (p.pc.AtCaptain? && s.captain == 0)
    || (p.pc.AtFinish? && s.finish == 0)
    || p.pc.Done?
  }

  lemma ParkedIfFree(s: State, i: nat)
    requires i < |s.procs| && !Enabled(s, i) && s.exclusive > 0
    ensures Parked(s, s.procs[i])
  {}

  lemma HolderEnabled(s: State, i: nat)
    requires i < |s.procs| && !Enabled(s, i)
    ensures !HoldsExclusive(s.procs[i].pc)
  {}

  /** What parked processes add up to: nobody is in between, and a semaphore above zero has no waiters. */
  predicate Rest(s: State, calm: bool, t: Tally, n: nat) {
    && t.awayH + t.awayS + t.waitH + t.waitS + t.aboard + t.sailed + t.past == n
    && t.counting == t.deciding == t.passing == t.loading == t.freeing == t.boardH == t.boardS == 0
    && t.toAnnounce == t.openB == t.openL == t.toLand == t.openF == 0
    && (s.molo > 0 ==> t.awayH == t.awayS == 0)
    && (s.hacker > 0 ==> t.waitH == 0) && (s.serf > 0 ==> t.waitS == 0)
    && (s.boarding > 0 ==> t.aboard == 0)
    && (s.landing > 0 ==> t.sailed == t.passed)
    && (s.captain > 0 ==> t.passed == 0)
    && (s.finish > 0 ==> t.past == t.out)
    && (calm ==> t.owed <= 4 * (t.sailed - t.passed))
  }

  lemma ParkedUnit(s: State, p: Proc, calm: bool)
    requires Parked(s, p) && (calm && p.captain ==> !IsEarly(StageOf(p.pc)))
    ensures Rest(s, calm, Unit(p), 1)
  {}

  lemma RestPlus(s: State, calm: bool, a: Tally, b: Tally, n: nat)
    requires Rest(s, calm, a, 1) && Rest(s, calm, b, n)
    ensures Rest(s, calm, Plus(a, b), n + 1)
  {}

  lemma {:induction false} ParkedTally(s: State, calm: bool, ps: seq<Proc>)
    requires forall j :: 0 <= j < |ps| ==> Parked(s, ps[j]) && (calm && ps[j].captain ==> !IsEarly(StageOf(ps[j].pc)))
    ensures Rest(s, calm, TallyOf(ps), |ps|)
  {
    hide Unit, Parked, Plus, StageOf;
    if ps == [] {
    } else {
      hide Rest;
      ParkedUnit(s, ps[0], calm);
      ParkedTally(s, calm, ps[1..]);
      RestPlus(s, calm, Unit(ps[0]), TallyOf(ps[1..]), |ps| - 1);
    }
  }

  lemma {:induction false} NoHolder(ps: seq<Proc>)
    requires forall j :: 0 <= j < |ps| ==> !HoldsExclusive(ps[j].pc)
    ensures TallyOf(ps).holders == 0
  {
    hide Unit, HoldsExclusive;
    if ps != [] {
      NoHolder(ps[1..]);
      HolderUnit(ps[0]);
    }
  }

  lemma StuckRest(s: State, f: Ferry)
    requires Inv(s, f) && Stuck(s)
    ensures Rest(s, f.mode.Unloading?, TallyOf(s.procs), |s.procs|) && s.exclusive == 1 && TallyOf(s.procs).holders == 0
    ensures forall j :: 0 <= j < |s.procs| ==> Parked(s, s.procs[j])
  {
    hide TallyOf, Enabled, Parked, HoldsExclusive, StageOf, ProcOk, Loaded, Rest;
    forall j: nat | j < |s.procs|
      ensures !HoldsExclusive(s.procs[j].pc)
    {
      HolderEnabled(s, j);
    }
    NoHolder(s.procs);
    forall j: nat | j < |s.procs|
      ensures Parked(s, s.procs[j])
      ensures f.mode.Unloading? && s.procs[j].captain ==> !IsEarly(StageOf(s.procs[j].pc))
    {
      ParkedIfFree(s, j);
    }
    ParkedTally(s, f.mode.Unloading?, s.procs);
  }

  // ----- no voyage stops half way -----

  lemma StuckNumbers(s: State, f: Ferry, t: Tally)
    requires Numbers(s, f, t) && Rest(s, f.mode.Unloading?, t, |s.procs|) && AtMost(NONE, t) && Consistent(t, |s.procs|)
    ensures f.mode == AtPier && t.awayH == t.awayS == 0
    ensures t.waitH == f.hackers == s.hackers && t.waitS == f.serfs == s.serfs
    ensures t.waitH + t.waitS + t.past == |s.procs|
    ensures if t.past == |s.procs| then t.out == |s.procs| else t.out == 0
  {}

  // ----- who is left -----

  function Hackers(kinds: seq<Kind>): nat {
    if kinds == [] then 0 else Bit(kinds[0] == Hacker) + Hackers(kinds[1..])
  }

  function KindsOf(ps: seq<Proc>): seq<Kind> {
    seq(|ps|, i requires 0 <= i < |ps| => ps[i].kind)
  }

  lemma UnitHackers(p: Proc)
    ensures Unit(p).hackers == Bit(p.kind == Hacker)
  {}

  lemma {:induction false} TallyHackers(ps: seq<Proc>)
    ensures TallyOf(ps).hackers == Hackers(KindsOf(ps))
  {
    hide Unit;
    if ps != [] {
      TallyHackers(ps[1..]);
      UnitHackers(ps[0]);
      assert KindsOf(ps)[1..] == KindsOf(ps[1..]);
    }
  }

  lemma {:induction false} KindsKeep(kinds: seq<Kind>, schedule: seq<nat>)
    requires Run(kinds, schedule).Some?
    ensures KindsOf(Run(kinds, schedule).value.procs) == kinds
  {
    hide Next, Enabled;
    if schedule != [] {
      var before := schedule[..|schedule| - 1];
      var r := Run(kinds, before).value;
      KindsKeep(kinds, before);
      StepKinds(r, schedule[|schedule| - 1]);
    }
  }

  lemma NextFrame(s: State, i: nat)
    requires Enabled(s, i)
    ensures var s' := Next(s, i);
      s'.procs == s.procs[i := s'.procs[i]] && s'.procs[i].kind == s.procs[i].kind
  {}

  lemma StepKinds(s: State, i: nat)
    requires Enabled(s, i)
    ensures KindsOf(Next(s, i).procs) == KindsOf(s.procs)
  {
    NextFrame(s, i);
    hide Next;
  }

  lemma DoneOut(p: Proc)
    ensures p.pc.Done? ==> Unit(p).out == 1
    ensures Unit(p).out == 1 ==> p.pc.AwaitPrint? || p.pc.Printing? || p.pc.Done?
    ensures 0 <= Unit(p).out <= 1
  {}

  lemma ParkedDone(s: State, p: Proc)
    requires Parked(s, p) && (p.pc.AwaitPrint? || p.pc.Printing? || p.pc.Done?)
    ensures p.pc.Done?
  {}

  /** If everybody is past the final wait, everybody is done; if nobody is, nobody is. */
  lemma OutMeansDone(s: State, i: nat)
    requires i < |s.procs| && Parked(s, s.procs[i])
    ensures TallyOf(s.procs).out == |s.procs| ==> s.procs[i].pc.Done?
    ensures TallyOf(s.procs).out == 0 ==> !s.procs[i].pc.Done?
  {
    hide TallyOf, Unit, Parked;
    var ps, q := s.procs, Proc(s.procs[i].kind, Done, false);
    TallyUpdate(ps, i, q);
    TallyConsistent(ps[i := q]);
    TallyNonnegative(ps[i := q]);
    UnitAtMost(ps, i);
    DoneOut(ps[i]);
    DoneOut(q);
    if Unit(ps[i]).out == 1 { ParkedDone(s, ps[i]); }
  }

  ghost predicate AllDone(s: State) {
    forall i :: 0 <= i < |s.procs| ==> s.procs[i].pc.Done?
  }

  /** The parity argument: with p of each kind, the pier is empty at the end if p is even, and holds one
      of each kind if p is odd. */
  lemma Leftover(f: Ferry, t: Tally, n: nat, p: nat)
    requires Taken(f, t, n) && NoGroup(f.hackers, f.serfs) && f.mode == AtPier
    requires t.hackers == p && n == 2 * p && t.awayH == t.awayS == 0
    ensures if p % 2 == 0 then f.hackers == f.serfs == 0 && 2 * f.voyages == p
      else f.hackers == f.serfs == 1 && 2 * f.voyages == p - 1
  {}

  lemma StuckOutcome(s: State, f: Ferry, p: nat)
    requires Inv(s, f) && Stuck(s) && Hackers(KindsOf(s.procs)) == p && |s.procs| == 2 * p
    ensures if p % 2 == 0 then AllDone(s) && 2 * f.voyages == p
      else s.hackers == s.serfs == 1 && 2 * f.voyages == p - 1 && forall i :: 0 <= i < |s.procs| ==> !s.procs[i].pc.Done?
  {
    hide TallyOf, Taken, ModeNumbers, Rest, Parked;
    var t := TallyOf(s.procs);
    StuckRest(s, f);
    TallyConsistent(s.procs);
    TallyNonnegative(s.procs);
    TallyHackers(s.procs);
    StuckNumbers(s, f, t);
    Leftover(f, t, |s.procs|, p);
    forall i | 0 <= i < |s.procs|
      ensures if p % 2 == 0 then s.procs[i].pc.Done? else !s.procs[i].pc.Done?
    {
      OutMeansDone(s, i);
    }
  }

  /** A run of p hackers and p serfs that cannot go on has everybody across after p / 2 voyages if p is
      even; otherwise one hacker and one serf stay on the pier and nobody finishes. */
  lemma FinalState(kinds: seq<Kind>, schedule: seq<nat>, p: nat)
    requires Run(kinds, schedule).Some? && Stuck(Run(kinds, schedule).value)
    requires Hackers(kinds) == p && |kinds| == 2 * p
    ensures var s := Run(kinds, schedule).value;
      && Watch(kinds, s.log).Some? && Watch(kinds, s.log).value.voyages == p / 2
      && if p % 2 == 0 then AllDone(s)
         else s.hackers == s.serfs == 1 && forall i :: 0 <= i < |s.procs| ==> !s.procs[i].pc.Done?
  {
    hide Inv, Stuck;
    var s := Run(kinds, schedule).value;
    Refines(kinds, schedule);
    KindsKeep(kinds, schedule);
    assert |KindsOf(s.procs)| == |s.procs|;
    StuckOutcome(s, Watch(kinds, s.log).value, p);
  }

  /** Nobody is stranded exactly if p is even. */
  lemma NobodyStranded(kinds: seq<Kind>, schedule: seq<nat>, p: nat)
    requires Run(kinds, schedule).Some? && Stuck(Run(kinds, schedule).value)
    requires Hackers(kinds) == p && |kinds| == 2 * p && p > 0
    ensures AllDone(Run(kinds, schedule).value) <==> p % 2 == 0
  {
    hide Stuck, Run, Watch;
    var s := Run(kinds, schedule).value;
    FinalState(kinds, schedule, p);
    StepsAreBounded(kinds, schedule);
    assert p % 2 == 1 ==> !s.procs[0].pc.Done?;
  }

  // ----- every schedule ends -----

  /** The most steps a process can still take, of n processes. */
  function Rank(pc: Pc, n: nat): nat {
    match pc
    case Done => 0
    case Printing => 1
    case AwaitPrint => 2
    case AtFinish => 3
    case FinishDone => 4
    case OpenFinish(k) => if k < n then 4 + n - k else 5
    case Finishing => n + 5
    case AwaitFinish => n + 6
    case Landed => n + 7
    case Freeing => n + 8
    case Landing => n + 9
    case AwaitLanding => n + 10
    case AtCaptain => n + 11
    case Sailing(k) => n + 12 + Left(k)
    case AtLanding => n + 16
    case Announced => n + 17
    case OpenLanding(k) => n + 18 + Left(k)
    case Announcing => n + 22
    case AwaitAnnounce => n + 23
    case AtBoarding => n + 24
    case Boarded => n + 25
    case OpenBoarding(k) => n + 26 + Left(k)
    case Boarding => n + 30
    case AwaitBoarding => n + 31
    case OnPier => n + 32
    case Leaving => n + 33
    case Passing => n + 34
    case Loading(_, k) => n + 34 + Left(k)
    case Deciding => n + 38
    case Reenter => n + 39
    case Counting => n + 40
    case AwaitCount => n + 41
    case AtMolo => n + 42
    case Starting => n + 43
    case Arriving => n + 44
  }

  /** Posts after the k-th in a loop of four. */
  function Left(k: nat): nat {
    if k < 4 then 3 - k else 0
  }

  lemma RankFallsAway(s: State, i: nat)
    requires Enabled(s, i) && StageOf(s.procs[i].pc) == Away
    ensures Rank(Next(s, i).procs[i].pc, |s.procs|) < Rank(s.procs[i].pc, |s.procs|)
  {}

  lemma RankFallsWaiting(s: State, i: nat)
    requires Enabled(s, i) && StageOf(s.procs[i].pc) == Waiting
    ensures Rank(Next(s, i).procs[i].pc, |s.procs|) < Rank(s.procs[i].pc, |s.procs|)
  {}

  lemma RankFallsAboard(s: State, i: nat)
    requires Enabled(s, i) && StageOf(s.procs[i].pc) == Aboard
    ensures Rank(Next(s, i).procs[i].pc, |s.procs|) < Rank(s.procs[i].pc, |s.procs|)
  {}

  lemma RankFallsSailed(s: State, i: nat)
    requires Enabled(s, i) && StageOf(s.procs[i].pc) == Sailed
    ensures Rank(Next(s, i).procs[i].pc, |s.procs|) < Rank(s.procs[i].pc, |s.procs|)
  {}

  lemma RankFallsAshore(s: State, i: nat)
    requires Enabled(s, i) && StageOf(s.procs[i].pc) == Ashore
    ensures Rank(Next(s, i).procs[i].pc, |s.procs|) < Rank(s.procs[i].pc, |s.procs|)
  {}

  lemma RankFalls(s: State, i: nat)
    requires Enabled(s, i)
    ensures var s' := Next(s, i);
      s'.procs == s.procs[i := s'.procs[i]] && Rank(s'.procs[i].pc, |s.procs|) < Rank(s.procs[i].pc, |s.procs|)
  {
    NextFrame(s, i);
    hide Next, Rank;
    match StageOf(s.procs[i].pc)
    case Away => RankFallsAway(s, i);
    case Waiting => RankFallsWaiting(s, i);
    case Aboard => RankFallsAboard(s, i);
    case Sailed => RankFallsSailed(s, i);
    case Ashore => RankFallsAshore(s, i);
    case Finished => assert false;
  }

  function Ranks(ps: seq<Proc>, n: nat): seq<int> {
    seq(|ps|, i requires 0 <= i < |ps| => Rank(ps[i].pc, n) as int)
  }

  lemma {:induction false} StepsAreBounded(kinds: seq<Kind>, schedule: seq<nat>)
    requires Run(kinds, schedule).Some?
    ensures var s := Run(kinds, schedule).value;
      |s.procs| == |kinds| && |schedule| + Sum(Ranks(s.procs, |kinds|)) <= |kinds| * (|kinds| + 44)
  {
    hide Next, Enabled, Rank;
    var n := |kinds|;
    if schedule == [] {
      assert Rank(Arriving, n) == n + 44 by { StartRank(n); }
      SumConstant(Ranks(Init(kinds).procs, n), n + 44);
    } else {
      var before := schedule[..|schedule| - 1];
      var r, s := Run(kinds, before).value, Run(kinds, schedule).value;
      var i := schedule[|schedule| - 1];
      EnabledIndex(r, i);
      StepsAreBounded(kinds, before);
      RankFalls(r, i);
      SumUpdate(Ranks(r.procs, n), i, Rank(s.procs[i].pc, n));
      assert Ranks(s.procs, n) == Ranks(r.procs, n)[i := Rank(s.procs[i].pc, n)];
    }
  }

  lemma StartRank(n: nat)
    ensures Rank(Arriving, n) == n + 44
  {}

  /** Termination: no schedule of n processes is longer than n * (n + 44) steps. */
  lemma Terminates(kinds: seq<Kind>, schedule: seq<nat>)
    requires Run(kinds, schedule).Some?
    ensures |schedule| <= |kinds| * (|kinds| + 44)
  {
    hide Run, Rank;
    StepsAreBounded(kinds, schedule);
    SumNonnegative(Ranks(Run(kinds, schedule).value.procs, |kinds|));
  }

  // ----- mutual exclusion -----

  /** Two processes are never between a wait and a post of EXCLUSIVE at once, and while one is, the
      semaphore is at zero. */
  lemma MutualExclusion(kinds: seq<Kind>, schedule: seq<nat>, i: nat, j: nat)
    requires Run(kinds, schedule).Some?
    requires var s := Run(kinds, schedule).value;
      i < |s.procs| && j < |s.procs| && HoldsExclusive(s.procs[i].pc) && HoldsExclusive(s.procs[j].pc)
    ensures i == j && Run(kinds, schedule).value.exclusive == 0
  {
    hide TallyOf, Unit, ModeNumbers, FinishNumbers, Taken, Agrees, HoldsExclusive, Run;
    var s := Run(kinds, schedule).value;
    Refines(kinds, schedule);
    var q := Proc(s.procs[i].kind, Done, false);
    var ps' := s.procs[i := q];
    TallyUpdate(s.procs, i, q);
    UnitAtMost(s.procs, i);
    HolderUnit(s.procs[i]);
    HolderUnit(s.procs[j]);
    DoneHolds();
    HolderUnit(q);
    if i != j { UnitAtMost(ps', j); }
  }

  lemma DoneHolds()
    ensures !HoldsExclusive(Done)
  {}

  // ----- the pier between decisions -----

  lemma UnitDeciding(p: Proc)
    ensures Unit(p).deciding == Bit(p.pc.Reenter? || p.pc.Deciding?) && Unit(p).loading == Bit(p.pc.Loading?)
  {}

  lemma {:induction false} NobodyDecides(ps: seq<Proc>)
    requires forall j :: 0 <= j < |ps| ==> !ps[j].pc.Reenter? && !ps[j].pc.Deciding? && !ps[j].pc.Loading?
    ensures TallyOf(ps).deciding == TallyOf(ps).loading == 0
  {
    hide Unit;
    if ps != [] {
      NobodyDecides(ps[1..]);
      UnitDeciding(ps[0]);
    }
  }

  /** Whenever no decision is pending, the people counted on the pier cannot form a group. */
  lemma NoGroupLeft(kinds: seq<Kind>, schedule: seq<nat>)
    requires Run(kinds, schedule).Some?
    requires forall p :: p in Run(kinds, schedule).value.procs ==> !p.pc.Reenter? && !p.pc.Deciding? && !p.pc.Loading?
    ensures var s := Run(kinds, schedule).value;
      0 <= s.hackers <= 3 && 0 <= s.serfs <= 3 && !(s.hackers >= 2 && s.serfs >= 2)
  {
    hide TallyOf, FinishNumbers, Taken, Agrees, Run;
    var s := Run(kinds, schedule).value;
    Refines(kinds, schedule);
    NobodyDecides(s.procs);
  }
}
