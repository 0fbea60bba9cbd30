/** The invariant that ties the semaphores and counters of the river-crossing program to the ferry
    its output describes, and its preservation by every step. */
module Crossing {
  import opened Wrappers
  import opened River
  import opened Ferry
  import opened Tally

  /** The pier after a decision: no group can be formed. */
  predicate NoGroup(hackers: int, serfs: int) {
    0 <= hackers <= 3 && 0 <= serfs <= 3 && !(hackers >= 2 && serfs >= 2)
  }

  /** The captain has finished admitting the group. */
  predicate Loaded(f: Ferry, t: Tally) {
    f.mode != AtPier && t.deciding + t.loading == 0
  }

  predicate IsEarly(g: Stage) {
    g == Away || g == Waiting || g == Aboard
  }

  /** Every process is where the ferry says, and the captain flag is set on the captain only. */
  ghost predicate Agrees(s: State, f: Ferry, t: Tally) {
    && |f.stage| == |f.kinds| == |s.procs|
    && (forall i :: 0 <= i < |s.procs| ==>
          f.kinds[i] == s.procs[i].kind && f.stage[i] == StageOf(s.procs[i].pc) && ProcOk(s.procs[i], |s.procs|))
    && (forall i :: 0 <= i < |s.procs| && IsEarly(f.stage[i]) ==>
          (s.procs[i].captain <==> Loaded(f, t) && i == f.captain))
    && (forall i :: 0 <= i < |s.procs| && s.procs[i].pc.Loading? ==>
          f.mode.Filling? && i == f.captain && HackerSeats(s.procs[i].pc.boat) == f.mode.hackerSeats)
    && (forall i :: 0 <= i < |s.procs| && f.mode != AtPier && (s.procs[i].pc.Reenter? || s.procs[i].pc.Deciding?) ==>
          i == f.captain)
  }

  /** The boarding, announcing and sailing semaphores are idle. */
  predicate Quiet(s: State, t: Tally) {
    && s.boarding == s.landing == s.captain == 0
    && t.toAnnounce == t.openB == t.admitted == t.openL == t.freed == t.passed == t.toLand == t.sailed == 0
  }

  predicate PierNumbers(s: State, f: Ferry, t: Tally) {
    && s.molo + t.counting + t.deciding + t.passing + t.freeing == 1
    && t.loading == t.postedH == t.postedS == 0
    && s.hackers == f.hackers && s.serfs == f.serfs
    && s.hacker == s.serf == 0 && t.boardH == t.boardS == 0
    && t.waitH == f.hackers && t.waitS == f.serfs
    && t.aboard == t.owed == 0 && Quiet(s, t)
    && s.waiting == 4 * t.freeing
  }

  /** The pier is closed while a boat is under way. */
  predicate PierClosed(s: State, t: Tally) {
    s.molo == t.counting == t.passing == t.freeing == 0
  }

  predicate FillingNumbers(s: State, f: Ferry, t: Tally, hs: nat, ss: nat) {
    && PierClosed(s, t) && 1 <= hs + ss <= 4 && t.deciding + t.loading <= 1
    && t.waitH == f.hackers + hs && t.waitS == f.serfs + ss
    && t.aboard == 4 - hs - ss && s.waiting == 4 - hs - ss && Quiet(s, t)
    && f.captain < |s.procs| && f.captain < |f.stage| && f.captain < |f.kinds| && (f.stage[f.captain] == Waiting || f.stage[f.captain] == Aboard)
    && (if f.kinds[f.captain] == Hacker then f.hackers == 0 else f.serfs == 0)
    && if t.deciding + t.loading == 0 then
         && s.hackers == f.hackers && s.serfs == f.serfs
         && s.hacker + t.boardH == hs && s.serf + t.boardS == ss
         && t.owed == 4 && t.postedH == t.postedS == 0
       else
         && hs + ss == 4 && s.hackers == f.hackers + hs && s.serfs == f.serfs + ss
         && Group(s.hackers, s.serfs).Some? && HackerSeats(Group(s.hackers, s.serfs).value) == hs
         && s.hacker + t.boardH == t.postedH && s.serf + t.boardS == t.postedS
         && t.owed == 0
  }

  /** Everybody on the pier is left over and the captain has admitted the group. */
  predicate Settled(s: State, f: Ferry, t: Tally) {
    && PierClosed(s, t) && t.deciding == t.loading == t.postedH == t.postedS == 0
    && s.hackers == f.hackers && s.serfs == f.serfs
    && s.hacker == s.serf == 0 && t.boardH == t.boardS == 0
    && t.waitH == f.hackers && t.waitS == f.serfs
    && f.captain < |s.procs| && f.captain < |f.stage|
  }

  predicate CallingNumbers(s: State, f: Ferry, t: Tally, c: nat) {
    && Settled(s, f, t) && c < 4
    && t.aboard == 4 - c && t.sailed == c && t.owed == 4
    && s.boarding + t.toAnnounce + c == (if t.openB > 0 then t.admitted else 4)
    && s.waiting == (if t.openB > 0 then 4 else c) && (t.openB > 0 ==> c == 0)
    && s.landing == s.captain == t.openL == t.freed == t.passed == t.toLand == 0
    && (f.stage[f.captain] == Aboard || f.stage[f.captain] == Sailed)
  }

  predicate UnloadingNumbers(s: State, f: Ferry, t: Tally, l: nat) {
    && Settled(s, f, t) && l < 4
    && t.aboard == 0 && t.sailed == 4 - l
    && s.boarding == t.toAnnounce == t.openB == t.admitted == 0
    && t.passed + s.landing + l == (if t.openL > 0 then t.freed else 4)
    && s.waiting == (if t.openL > 0 then 4 else l) && (t.openL > 0 ==> l == 0)
    && s.captain + t.owed + t.toLand + l == 4
    && (f.stage[f.captain] == Sailed || f.stage[f.captain] == Ashore)
  }

  predicate ModeNumbers(s: State, f: Ferry, t: Tally) {
    match f.mode
    case AtPier => PierNumbers(s, f, t)
    case Filling(hs, ss) => FillingNumbers(s, f, t, hs, ss)
    case Calling(c) => CallingNumbers(s, f, t, c)
    case Unloading(l) => UnloadingNumbers(s, f, t, l)
  }

  predicate FinishNumbers(s: State, t: Tally) {
    && s.toFinish == t.past <= |s.procs|
    && (if t.past < |s.procs| then s.finish == t.out == t.openF == t.released == 0
        else s.finish + t.out == if t.openF > 0 then t.released else |s.procs|)
  }

  /** The people taken from the pier so far fill whole boats, an even number of each kind. */
  predicate Taken(f: Ferry, t: Tally, n: nat) {
    && (t.hackers - t.awayH - f.hackers) % 2 == 0
    && n - t.awayH - t.awayS - f.hackers - f.serfs == 4 * (f.voyages + if f.mode == AtPier then 0 else 1)
  }

  ghost predicate Numbers(s: State, f: Ferry, t: Tally) {
    && s.exclusive + t.holders == 1
    && NoGroup(f.hackers, f.serfs)
    && ModeNumbers(s, f, t)
    && FinishNumbers(s, t)
    && Taken(f, t, |s.procs|)
    && s.counter == |s.log|
  }

  ghost predicate Inv(s: State, f: Ferry) {
    |f.stage| == |f.kinds| == |s.procs|
    && var t := TallyOf(s.procs);
       Agrees(s, f, t) && Numbers(s, f, t)
  }

  lemma TakenSame(f: Ferry, t: Tally, t': Tally, n: nat)
    requires Taken(f, t, n) && t'.hackers == t.hackers && t'.awayH == t.awayH && t'.awayS == t.awayS
    ensures Taken(f, t', n)
  {}

  /** What every step lemma starts from: the tallies before and after, and how they differ. */
  lemma Moved(s: State, i: nat, s': State)
    requires i < |s.procs| && |s'.procs| == |s.procs| && s'.procs == s.procs[i := s'.procs[i]]
    ensures Plus(Unit(s.procs[i]), TallyOf(s'.procs)) == Plus(Unit(s'.procs[i]), TallyOf(s.procs))
    ensures AtMost(Unit(s.procs[i]), TallyOf(s.procs)) && AtMost(NONE, TallyOf(s.procs)) && AtMost(NONE, TallyOf(s'.procs))
    ensures Consistent(TallyOf(s.procs), |s.procs|) && Consistent(TallyOf(s'.procs), |s.procs|)
    ensures HoldsExclusive(s.procs[i].pc) && TallyOf(s.procs).holders == 1 ==> SameLoops(TallyOf(s.procs), Unit(s.procs[i]))
  {
    hide Unit, Plus, TallyOf, AtMost, Consistent, SameLoops, HoldsExclusive;
    TallyUpdate(s.procs, i, s'.procs[i]);
    UnitAtMost(s.procs, i);
    TallyNonnegative(s.procs); TallyNonnegative(s'.procs);
    TallyConsistent(s.procs); TallyConsistent(s'.procs);
    if HoldsExclusive(s.procs[i].pc) && TallyOf(s.procs).holders == 1 { SoleHolder(s.procs, i); }
  }

  /** From the exchange of units to the tally itself. */
  lemma NewTally(s: State, i: nat, s': State, u: Tally)
    requires i < |s.procs| && |s'.procs| == |s.procs| && s'.procs == s.procs[i := s'.procs[i]]
    requires Unit(s'.procs[i]) == Plus(Unit(s.procs[i]), u)
    ensures TallyOf(s'.procs) == Plus(TallyOf(s.procs), u)
  {
    hide Unit, TallyOf;
    TallyUpdate(s.procs, i, s'.procs[i]);
  }

  /** A silent step of process i keeps the agreement if it keeps the stage and the flag. */
  lemma AgreesKeep(s: State, f: Ferry, t: Tally, i: nat, s': State, t': Tally)
    requires Agrees(s, f, t) && i < |s.procs| && |s'.procs| == |s.procs| && s'.procs == s.procs[i := s'.procs[i]]
    requires Loaded(f, t') == Loaded(f, t)
    requires var p, q := s.procs[i], s'.procs[i];
      && q.kind == p.kind && q.captain == p.captain && StageOf(q.pc) == StageOf(p.pc) && ProcOk(q, |s.procs|)
      && (q.pc.Loading? ==> f.mode.Filling? && i == f.captain && HackerSeats(q.pc.boat) == f.mode.hackerSeats)
      && (q.pc.Reenter? || q.pc.Deciding? ==> f.mode == AtPier || i == f.captain)
    ensures Agrees(s', f, t')
  {
    hide StageOf, ProcOk, Loaded, HackerSeats;
  }

  // ----- silent steps -----

  /** Process i moved from pc to pc', silently, with these tallies before and after. */
  ghost predicate Silent(s: State, i: nat, s': State, t: Tally, t': Tally) {
    && i < |s.procs| && |s'.procs| == |s.procs| && s'.procs == s.procs[i := s'.procs[i]]
    && t == TallyOf(s.procs) && t' == TallyOf(s'.procs)
    && s'.procs[i].kind == s.procs[i].kind && s'.procs[i].captain == s.procs[i].captain
    && StageOf(s'.procs[i].pc) == StageOf(s.procs[i].pc) && ProcOk(s'.procs[i], |s.procs|)
    && s'.counter == s.counter && s'.log == s.log
  }

  lemma SilentInv(s: State, f: Ferry, i: nat, s': State, t: Tally, t': Tally, u: Tally)
    requires Inv(s, f) && Silent(s, i, s', t, t') && (f.mode == AtPier || u.deciding + u.loading == 0) && t' == Plus(t, u)
    requires var q := s'.procs[i];
      && (q.pc.Loading? ==> f.mode.Filling? && i == f.captain && HackerSeats(q.pc.boat) == f.mode.hackerSeats)
      && (q.pc.Reenter? || q.pc.Deciding? ==> f.mode == AtPier || i == f.captain)
    requires s'.exclusive + t'.holders == 1 && ModeNumbers(s', f, t') && FinishNumbers(s', t') && Taken(f, t', |s'.procs|)
    ensures Inv(s', f)
  {
    hide TallyOf, StageOf, ProcOk, ModeNumbers, FinishNumbers, Taken, HackerSeats;
    AgreesKeep(s, f, t, i, s', t');
  }


  /** A process that passes the token on is not a captain. */
  lemma PassingFlag(s: State, f: Ferry, i: nat)
    requires Inv(s, f) && i < |s.procs| && s.procs[i].pc.Passing?
    ensures !s.procs[i].captain
  {
    hide TallyOf;
    UnitAtMost(s.procs, i);
  }

  lemma SumsAtMolo(a: Tally, b: Tally, h: bool, c: bool)
    requires a == NONE.(hackers := Bit(h), awayH := Bit(h), awayS := Bit(!h))
    requires b == NONE.(counting := 1, hackers := Bit(h), awayH := Bit(h), awayS := Bit(!h))
    ensures b == Plus(a, NONE.(counting := 1))
    ensures a.holders == 0
  {}

  lemma UnitsAtMolo(p: Proc, q: Proc)
    requires p.pc == AtMolo && q == p.(pc := AwaitCount)
    ensures Unit(q) == Plus(Unit(p), NONE.(counting := 1))
    ensures StageOf(q.pc) == StageOf(p.pc)
    ensures Unit(p).holders == 0
  {
    hide Unit, StageOf, Row, Owed, Plus, SameLoops;
    RowAtMolo(p);
    RowAwaitCount(q);
    SumsAtMolo(Unit(p), Unit(q), p.kind == Hacker, p.captain);
  }

  lemma NumbersAtMolo(s: State, f: Ferry, t: Tally, s': State, t': Tally)
    requires Numbers(s, f, t) && AtMost(NONE, t) && AtMost(NONE, t') && |s'.procs| == |s.procs| && Consistent(t', |s.procs|)
    requires s.molo > 0
    requires s' == s.(procs := s'.procs, molo := s.molo - 1) && t' == Plus(t, NONE.(counting := 1))
    ensures s'.exclusive + t'.holders == 1 && ModeNumbers(s', f, t') && FinishNumbers(s', t') && Taken(f, t', |s'.procs|)
  {
    TakenSame(f, t, t', |s.procs|);
    hide Taken, NoGroup, Group;
  }

  /** Taking the pier token. */
  lemma StepAtMolo(s: State, f: Ferry, i: nat)
    requires Inv(s, f) && Enabled(s, i) && s.procs[i].pc.AtMolo?
    ensures Inv(Next(s, i), f)
  {
    hide TallyOf, ModeNumbers, FinishNumbers, Taken, NoGroup, Unit, Plus, StageOf;
    var s' := Next(s, i);
    var p := s.procs[i];
    UnitsAtMolo(p, s'.procs[i]);
    NewTally(s, i, s', NONE.(counting := 1));
    Moved(s, i, s');
    var t, t' := TallyOf(s.procs), TallyOf(s'.procs);
    NumbersAtMolo(s, f, t, s', t');
    SilentInv(s, f, i, s', t, t', NONE.(counting := 1));
  }

  lemma SumsPassing(a: Tally, b: Tally, h: bool, c: bool)
    requires a == NONE.(holders := 1, passing := 1, hackers := Bit(h), waitH := Bit(h), waitS := Bit(!h))
    requires b == NONE.(holders := 1, hackers := Bit(h), waitH := Bit(h), waitS := Bit(!h), owed := 4 * Bit(c))
    requires !c
    ensures b == Plus(a, NONE.(passing := -1))
    ensures a.passing == 1
  {}

  lemma UnitsPassing(p: Proc, q: Proc)
    requires p.pc == Passing && !p.captain && q == p.(pc := Leaving)
    ensures Unit(q) == Plus(Unit(p), NONE.(passing := -1))
    ensures StageOf(q.pc) == StageOf(p.pc)
    ensures Unit(p).passing == 1
  {
    hide Unit, StageOf, Row, Owed, Plus, SameLoops;
    RowPassing(p);
    RowLeaving(q);
    SumsPassing(Unit(p), Unit(q), p.kind == Hacker, p.captain);
  }

  lemma NumbersPassing(s: State, f: Ferry, t: Tally, s': State, t': Tally)
    requires Numbers(s, f, t) && AtMost(NONE, t) && AtMost(NONE, t') && |s'.procs| == |s.procs| && Consistent(t', |s.procs|)
    requires t.passing >= 1
    requires s' == s.(procs := s'.procs, molo := s.molo + 1) && t' == Plus(t, NONE.(passing := -1))
    ensures s'.exclusive + t'.holders == 1 && ModeNumbers(s', f, t') && FinishNumbers(s', t') && Taken(f, t', |s'.procs|)
  {
    TakenSame(f, t, t', |s.procs|);
    hide Taken, NoGroup, Group;
  }

  /** Passing the pier token on. */
  lemma StepPassing(s: State, f: Ferry, i: nat)
    requires Inv(s, f) && Enabled(s, i) && s.procs[i].pc.Passing?
    ensures Inv(Next(s, i), f)
  {
    hide TallyOf, ModeNumbers, FinishNumbers, Taken, NoGroup, Unit, Plus, StageOf;
    var s' := Next(s, i);
    var p := s.procs[i];
    PassingFlag(s, f, i);
    UnitsPassing(p, s'.procs[i]);
    NewTally(s, i, s', NONE.(passing := -1));
    Moved(s, i, s');
    var t, t' := TallyOf(s.procs), TallyOf(s'.procs);
    NumbersPassing(s, f, t, s', t');
    SilentInv(s, f, i, s', t, t', NONE.(passing := -1));
  }

  lemma SumsAdmitted(a: Tally, b: Tally, c: bool, h: bool)
    requires a == NONE.(hackers := Bit(h), waitH := Bit(h), waitS := Bit(!h), owed := 4 * Bit(c))
    requires b == NONE.(boardH := Bit(h), boardS := Bit(!h), hackers := Bit(h), waitH := Bit(h),
      waitS := Bit(!h), owed := 4 * Bit(c))
    ensures b == Plus(a, NONE.(boardH := Bit(h), boardS := Bit(!h)))
    ensures a.holders == 0
  {}

  lemma UnitsAdmitted(p: Proc, q: Proc, h: bool)
    requires p.pc == OnPier && h == (p.kind == Hacker) && q == p.(pc := AwaitBoarding)
    ensures Unit(q) == Plus(Unit(p), NONE.(boardH := Bit(h), boardS := Bit(!h)))
    ensures StageOf(q.pc) == StageOf(p.pc)
    ensures Unit(p).holders == 0
  {
    hide Unit, StageOf, Row, Owed, Plus, SameLoops;
    RowOnPier(p);
    RowAwaitBoarding(q);
    SumsAdmitted(Unit(p), Unit(q), p.captain, h);
  }

  lemma NumbersAdmitted(s: State, f: Ferry, t: Tally, s': State, t': Tally, h: bool)
    requires Numbers(s, f, t) && AtMost(NONE, t) && AtMost(NONE, t') && |s'.procs| == |s.procs| && Consistent(t', |s.procs|)
    requires (if h then s.hacker > 0 && s'.hacker == s.hacker - 1 && s'.serf == s.serf else s.serf > 0 && s'.serf == s.serf - 1 && s'.hacker == s.hacker)
    requires s' == s.(procs := s'.procs, hacker := s'.hacker, serf := s'.serf)
    requires t' == Plus(t, NONE.(boardH := Bit(h), boardS := Bit(!h)))
    ensures s'.exclusive + t'.holders == 1 && ModeNumbers(s', f, t') && FinishNumbers(s', t') && Taken(f, t', |s'.procs|)
  {
    TakenSame(f, t, t', |s.procs|);
    hide Taken, NoGroup, Group;
  }

  /** Being admitted to the boat. */
  lemma StepAdmitted(s: State, f: Ferry, i: nat)
    requires Inv(s, f) && Enabled(s, i) && s.procs[i].pc.OnPier?
    ensures Inv(Next(s, i), f)
  {
    hide TallyOf, ModeNumbers, FinishNumbers, Taken, NoGroup, Unit, Plus, StageOf;
    var s' := Next(s, i);
    var p := s.procs[i];
    var h := p.kind == Hacker;
    UnitsAdmitted(p, s'.procs[i], h);
    NewTally(s, i, s', NONE.(boardH := Bit(h), boardS := Bit(!h)));
    Moved(s, i, s');
    var t, t' := TallyOf(s.procs), TallyOf(s'.procs);
    NumbersAdmitted(s, f, t, s', t', h);
    SilentInv(s, f, i, s', t, t', NONE.(boardH := Bit(h), boardS := Bit(!h)));
  }

  lemma SumsAtBoarding(a: Tally, b: Tally, h: bool, c: bool)
    requires a == NONE.(hackers := Bit(h), aboard := 1, owed := 4 * Bit(c))
    requires b == NONE.(hackers := Bit(h), aboard := 1, toAnnounce := 1, owed := 4 * Bit(c))
    ensures b == Plus(a, NONE.(toAnnounce := 1))
    ensures a.holders == 0
  {}

  lemma UnitsAtBoarding(p: Proc, q: Proc)
    requires p.pc == AtBoarding && q == p.(pc := AwaitAnnounce)
    ensures Unit(q) == Plus(Unit(p), NONE.(toAnnounce := 1))
    ensures StageOf(q.pc) == StageOf(p.pc)
    ensures Unit(p).holders == 0
  {
    hide Unit, StageOf, Row, Owed, Plus, SameLoops;
    RowAtBoarding(p);
    RowAwaitAnnounce(q);
    SumsAtBoarding(Unit(p), Unit(q), p.kind == Hacker, p.captain);
  }

  lemma NumbersAtBoarding(s: State, f: Ferry, t: Tally, s': State, t': Tally)
    requires Numbers(s, f, t) && AtMost(NONE, t) && AtMost(NONE, t') && |s'.procs| == |s.procs| && Consistent(t', |s.procs|)
    requires s.boarding > 0
    requires s' == s.(procs := s'.procs, boarding := s.boarding - 1) && t' == Plus(t, NONE.(toAnnounce := 1))
    ensures s'.exclusive + t'.holders == 1 && ModeNumbers(s', f, t') && FinishNumbers(s', t') && Taken(f, t', |s'.procs|)
  {
    TakenSame(f, t, t', |s.procs|);
    hide Taken, NoGroup, Group;
  }

  /** Passing the boarding barrier. */
  lemma StepAtBoarding(s: State, f: Ferry, i: nat)
    requires Inv(s, f) && Enabled(s, i) && s.procs[i].pc.AtBoarding?
    ensures Inv(Next(s, i), f)
  {
    hide TallyOf, ModeNumbers, FinishNumbers, Taken, NoGroup, Unit, Plus, StageOf;
    var s' := Next(s, i);
    var p := s.procs[i];
    UnitsAtBoarding(p, s'.procs[i]);
    NewTally(s, i, s', NONE.(toAnnounce := 1));
    Moved(s, i, s');
    var t, t' := TallyOf(s.procs), TallyOf(s'.procs);
    NumbersAtBoarding(s, f, t, s', t');
    SilentInv(s, f, i, s', t, t', NONE.(toAnnounce := 1));
  }

  lemma SumsAtLanding(a: Tally, b: Tally, h: bool, c: bool)
    requires a == NONE.(hackers := Bit(h), sailed := 1, owed := 4 * Bit(c))
    requires b == if c then NONE.(hackers := Bit(h), sailed := 1, passed := 1,
      owed := if c && 0 < 4 then 4 - (0) else 0) else NONE.(hackers := Bit(h), sailed := 1, passed := 1)
    ensures b == Plus(a, NONE.(passed := 1))
    ensures a.holders == 0
  {}

  lemma UnitsAtLanding(p: Proc, q: Proc)
    requires p.pc == AtLanding && q == p.(pc := if p.captain then Sailing(0) else AtCaptain)
    ensures Unit(q) == Plus(Unit(p), NONE.(passed := 1))
    ensures StageOf(q.pc) == StageOf(p.pc)
    ensures Unit(p).holders == 0
  {
    hide Unit, StageOf, Row, Owed, Plus, SameLoops;
    RowAtLanding(p);
    if p.captain { RowSailing(q, 0); } else { RowAtCaptain(q); }
    SumsAtLanding(Unit(p), Unit(q), p.kind == Hacker, p.captain);
  }

  lemma NumbersAtLanding(s: State, f: Ferry, t: Tally, s': State, t': Tally)
    requires Numbers(s, f, t) && AtMost(NONE, t) && AtMost(NONE, t') && |s'.procs| == |s.procs| && Consistent(t', |s.procs|)
    requires s.landing > 0
    requires s' == s.(procs := s'.procs, landing := s.landing - 1) && t' == Plus(t, NONE.(passed := 1))
    ensures s'.exclusive + t'.holders == 1 && ModeNumbers(s', f, t') && FinishNumbers(s', t') && Taken(f, t', |s'.procs|)
  {
    TakenSame(f, t, t', |s.procs|);
    hide Taken, NoGroup, Group;
  }

  /** Passing the landing barrier; the captain goes on to wake the passengers. */
  lemma StepAtLanding(s: State, f: Ferry, i: nat)
    requires Inv(s, f) && Enabled(s, i) && s.procs[i].pc.AtLanding?
    ensures Inv(Next(s, i), f)
  {
    hide TallyOf, ModeNumbers, FinishNumbers, Taken, NoGroup, Unit, Plus, StageOf;
    var s' := Next(s, i);
    var p := s.procs[i];
    UnitsAtLanding(p, s'.procs[i]);
    NewTally(s, i, s', NONE.(passed := 1));
    Moved(s, i, s');
    var t, t' := TallyOf(s.procs), TallyOf(s'.procs);
    NumbersAtLanding(s, f, t, s', t');
    SilentInv(s, f, i, s', t, t', NONE.(passed := 1));
  }

  lemma SumsSailing(a: Tally, b: Tally, h: bool, c: bool, k: nat)
    requires a == NONE.(hackers := Bit(h), sailed := 1, passed := 1, owed := if c && k < 4 then 4 - (k) else 0)
    requires b == if k + 1 < 4 then NONE.(hackers := Bit(h), sailed := 1, passed := 1,
      owed := if c && k + 1 < 4 then 4 - (k + 1) else 0) else NONE.(hackers := Bit(h), sailed := 1, passed := 1)
    requires k < 4 && c
    ensures b == Plus(a, NONE.(owed := -1))
    ensures a.passed == 1
  {}

  lemma UnitsSailing(p: Proc, q: Proc)
    requires p.pc.Sailing? && p.pc.woken < 4 && p.captain
    requires q == p.(pc := if p.pc.woken + 1 < 4 then Sailing(p.pc.woken + 1) else AtCaptain)
    ensures Unit(q) == Plus(Unit(p), NONE.(owed := -1))
    ensures StageOf(q.pc) == StageOf(p.pc)
    ensures Unit(p).passed == 1
  {
    hide Unit, StageOf, Row, Owed, Plus, SameLoops;
    RowSailing(p, p.pc.woken);
    if p.pc.woken + 1 < 4 { RowSailing(q, p.pc.woken + 1); } else { RowAtCaptain(q); }
    SumsSailing(Unit(p), Unit(q), p.kind == Hacker, p.captain, p.pc.woken);
  }

  lemma NumbersSailing(s: State, f: Ferry, t: Tally, s': State, t': Tally)
    requires Numbers(s, f, t) && AtMost(NONE, t) && AtMost(NONE, t') && |s'.procs| == |s.procs| && Consistent(t', |s.procs|)
    requires t.passed >= 1
    requires s' == s.(procs := s'.procs, captain := s.captain + 1) && t' == Plus(t, NONE.(owed := -1))
    ensures s'.exclusive + t'.holders == 1 && ModeNumbers(s', f, t') && FinishNumbers(s', t') && Taken(f, t', |s'.procs|)
  {
    TakenSame(f, t, t', |s.procs|);
    hide Taken, NoGroup, Group;
  }

  /** The captain wakes one passenger. */
  lemma StepSailing(s: State, f: Ferry, i: nat)
    requires Inv(s, f) && Enabled(s, i) && s.procs[i].pc.Sailing?
    ensures Inv(Next(s, i), f)
  {
    hide TallyOf, ModeNumbers, FinishNumbers, Taken, NoGroup, Unit, Plus, StageOf;
    var s' := Next(s, i);
    var p := s.procs[i];
    UnitsSailing(p, s'.procs[i]);
    NewTally(s, i, s', NONE.(owed := -1));
    Moved(s, i, s');
    var t, t' := TallyOf(s.procs), TallyOf(s'.procs);
    NumbersSailing(s, f, t, s', t');
    SilentInv(s, f, i, s', t, t', NONE.(owed := -1));
  }

  lemma SumsAtCaptain(a: Tally, b: Tally, h: bool, c: bool)
    requires a == NONE.(hackers := Bit(h), sailed := 1, passed := 1)
    requires b == NONE.(hackers := Bit(h), sailed := 1, passed := 1, toLand := 1)
    ensures b == Plus(a, NONE.(toLand := 1))
    ensures a.holders == 0
  {}

  lemma UnitsAtCaptain(p: Proc, q: Proc)
    requires p.pc == AtCaptain && q == p.(pc := AwaitLanding)
    ensures Unit(q) == Plus(Unit(p), NONE.(toLand := 1))
    ensures StageOf(q.pc) == StageOf(p.pc)
    ensures Unit(p).holders == 0
  {
    hide Unit, StageOf, Row, Owed, Plus, SameLoops;
    RowAtCaptain(p);
    RowAwaitLanding(q);
    SumsAtCaptain(Unit(p), Unit(q), p.kind == Hacker, p.captain);
  }

  lemma NumbersAtCaptain(s: State, f: Ferry, t: Tally, s': State, t': Tally)
    requires Numbers(s, f, t) && AtMost(NONE, t) && AtMost(NONE, t') && |s'.procs| == |s.procs| && Consistent(t', |s.procs|)
    requires s.captain > 0
    requires s' == s.(procs := s'.procs, captain := s.captain - 1) && t' == Plus(t, NONE.(toLand := 1))
    ensures s'.exclusive + t'.holders == 1 && ModeNumbers(s', f, t') && FinishNumbers(s', t') && Taken(f, t', |s'.procs|)
  {
    TakenSame(f, t, t', |s.procs|);
    hide Taken, NoGroup, Group;
  }

  /** Being woken by the captain. */
  lemma StepAtCaptain(s: State, f: Ferry, i: nat)
    requires Inv(s, f) && Enabled(s, i) && s.procs[i].pc.AtCaptain?
    ensures Inv(Next(s, i), f)
  {
    hide TallyOf, ModeNumbers, FinishNumbers, Taken, NoGroup, Unit, Plus, StageOf;
    var s' := Next(s, i);
    var p := s.procs[i];
    UnitsAtCaptain(p, s'.procs[i]);
    NewTally(s, i, s', NONE.(toLand := 1));
    Moved(s, i, s');
    var t, t' := TallyOf(s.procs), TallyOf(s'.procs);
    NumbersAtCaptain(s, f, t, s', t');
    SilentInv(s, f, i, s', t, t', NONE.(toLand := 1));
  }

  lemma SumsAtFinish(a: Tally, b: Tally, h: bool, c: bool)
    requires a == NONE.(hackers := Bit(h), past := 1)
    requires b == NONE.(hackers := Bit(h), past := 1, out := 1)
    ensures b == Plus(a, NONE.(out := 1))
    ensures a.holders == 0
  {}

  lemma UnitsAtFinish(p: Proc, q: Proc)
    requires p.pc == AtFinish && q == p.(pc := AwaitPrint)
    ensures Unit(q) == Plus(Unit(p), NONE.(out := 1))
    ensures StageOf(q.pc) == StageOf(p.pc)
    ensures Unit(p).holders == 0
  {
    hide Unit, StageOf, Row, Owed, Plus, SameLoops;
    RowAtFinish(p);
    RowAwaitPrint(q);
    SumsAtFinish(Unit(p), Unit(q), p.kind == Hacker, p.captain);
  }

  lemma NumbersAtFinish(s: State, f: Ferry, t: Tally, s': State, t': Tally)
    requires Numbers(s, f, t) && AtMost(NONE, t) && AtMost(NONE, t') && |s'.procs| == |s.procs| && Consistent(t', |s.procs|)
    requires s.finish > 0
    requires s' == s.(procs := s'.procs, finish := s.finish - 1) && t' == Plus(t, NONE.(out := 1))
    ensures s'.exclusive + t'.holders == 1 && ModeNumbers(s', f, t') && FinishNumbers(s', t') && Taken(f, t', |s'.procs|)
  {
    TakenSame(f, t, t', |s.procs|);
    hide Taken, NoGroup, Group;
  }

  /** Passing the final barrier. */
  lemma StepAtFinish(s: State, f: Ferry, i: nat)
    requires Inv(s, f) && Enabled(s, i) && s.procs[i].pc.AtFinish?
    ensures Inv(Next(s, i), f)
  {
    hide TallyOf, ModeNumbers, FinishNumbers, Taken, NoGroup, Unit, Plus, StageOf;
    var s' := Next(s, i);
    var p := s.procs[i];
    UnitsAtFinish(p, s'.procs[i]);
    NewTally(s, i, s', NONE.(out := 1));
    Moved(s, i, s');
    var t, t' := TallyOf(s.procs), TallyOf(s'.procs);
    NumbersAtFinish(s, f, t, s', t');
    SilentInv(s, f, i, s', t, t', NONE.(out := 1));
  }

  lemma SumsOpenBoarding(a: Tally, b: Tally, h: bool, c: bool, k: nat)
    requires a == NONE.(holders := 1, hackers := Bit(h), aboard := 1, openB := 1, admitted := k, owed := 4 * Bit(c))
    requires b == NONE.(holders := 1, hackers := Bit(h), aboard := 1, openB := 1, admitted := k + 1,
      owed := 4 * Bit(c))
    ensures b == Plus(a, NONE.(admitted := 1))
    ensures a.holders == 1
    ensures SameLoops(a, NONE.(openB := 1, admitted := k))
  {}

  lemma UnitsOpenBoarding(p: Proc, q: Proc, k: nat)
    requires p.pc == OpenBoarding(k) && q == p.(pc := OpenBoarding(k + 1))
    ensures Unit(q) == Plus(Unit(p), NONE.(admitted := 1))
    ensures StageOf(q.pc) == StageOf(p.pc)
    ensures Unit(p).holders == 1 && SameLoops(Unit(p), NONE.(openB := 1, admitted := k))
  {
    hide Unit, StageOf, Row, Owed, Plus, SameLoops;
    RowOpenBoarding(p, k);
    RowOpenBoarding(q, k + 1);
    SumsOpenBoarding(Unit(p), Unit(q), p.kind == Hacker, p.captain, k);
  }

  lemma NumbersOpenBoarding(s: State, f: Ferry, t: Tally, s': State, t': Tally, k: nat)
    requires Numbers(s, f, t) && AtMost(NONE, t) && AtMost(NONE, t') && |s'.procs| == |s.procs| && Consistent(t', |s.procs|)
    requires t.openB == 1
    requires s' == s.(procs := s'.procs, boarding := s.boarding + 1) && t' == Plus(t, NONE.(admitted := 1))
    ensures s'.exclusive + t'.holders == 1 && ModeNumbers(s', f, t') && FinishNumbers(s', t') && Taken(f, t', |s'.procs|)
  {
    TakenSame(f, t, t', |s.procs|);
    hide Taken, NoGroup, Group;
  }

  /** Opening the boarding barrier for one passenger. */
  lemma StepOpenBoarding(s: State, f: Ferry, i: nat)
    requires Inv(s, f) && Enabled(s, i) && s.procs[i].pc.OpenBoarding? && s.procs[i].pc.admitted + 1 < 4
    ensures Inv(Next(s, i), f)
  {
    hide TallyOf, ModeNumbers, FinishNumbers, Taken, NoGroup, Unit, Plus, StageOf;
    var s' := Next(s, i);
    var p := s.procs[i];
    var k := p.pc.admitted;
    UnitsOpenBoarding(p, s'.procs[i], k);
    NewTally(s, i, s', NONE.(admitted := 1));
    Moved(s, i, s');
    var t, t' := TallyOf(s.procs), TallyOf(s'.procs);
    NumbersOpenBoarding(s, f, t, s', t', k);
    SilentInv(s, f, i, s', t, t', NONE.(admitted := 1));
  }

  lemma SumsOpenBoardingLast(a: Tally, b: Tally, h: bool, c: bool)
    requires a == NONE.(holders := 1, hackers := Bit(h), aboard := 1, openB := 1, admitted := 3, owed := 4 * Bit(c))
    requires b == NONE.(holders := 1, hackers := Bit(h), aboard := 1, owed := 4 * Bit(c))
    ensures b == Plus(a, NONE.(openB := -1, admitted := -3))
    ensures a.holders == 1
    ensures SameLoops(a, NONE.(openB := 1, admitted := 3))
  {}

  lemma UnitsOpenBoardingLast(p: Proc, q: Proc)
    requires p.pc == OpenBoarding(3) && q == p.(pc := Boarded)
    ensures Unit(q) == Plus(Unit(p), NONE.(openB := -1, admitted := -3))
    ensures StageOf(q.pc) == StageOf(p.pc)
    ensures Unit(p).holders == 1 && SameLoops(Unit(p), NONE.(openB := 1, admitted := 3))
  {
    hide Unit, StageOf, Row, Owed, Plus, SameLoops;
    RowOpenBoarding(p, 3);
    RowBoarded(q);
    SumsOpenBoardingLast(Unit(p), Unit(q), p.kind == Hacker, p.captain);
  }

  lemma NumbersOpenBoardingLast(s: State, f: Ferry, t: Tally, s': State, t': Tally)
    requires Numbers(s, f, t) && AtMost(NONE, t) && AtMost(NONE, t') && |s'.procs| == |s.procs| && Consistent(t', |s.procs|)
    requires t.openB == 1 && t.admitted == 3
    requires s' == s.(procs := s'.procs, boarding := s.boarding + 1, waiting := 0)
    requires t' == Plus(t, NONE.(openB := -1, admitted := -3))
    ensures s'.exclusive + t'.holders == 1 && ModeNumbers(s', f, t') && FinishNumbers(s', t') && Taken(f, t', |s'.procs|)
  {
    TakenSame(f, t, t', |s.procs|);
    hide Taken, NoGroup, Group;
  }

  /** Opening the boarding barrier for the last passenger. */
  lemma StepOpenBoardingLast(s: State, f: Ferry, i: nat)
    requires Inv(s, f) && Enabled(s, i) && s.procs[i].pc.OpenBoarding? && s.procs[i].pc.admitted + 1 >= 4
    ensures Inv(Next(s, i), f)
  {
    hide TallyOf, ModeNumbers, FinishNumbers, Taken, NoGroup, Unit, Plus, StageOf;
    var s' := Next(s, i);
    var p := s.procs[i];
    UnitsOpenBoardingLast(p, s'.procs[i]);
    NewTally(s, i, s', NONE.(openB := -1, admitted := -3));
    Moved(s, i, s');
    var t, t' := TallyOf(s.procs), TallyOf(s'.procs);
    NumbersOpenBoardingLast(s, f, t, s', t');
    SilentInv(s, f, i, s', t, t', NONE.(openB := -1, admitted := -3));
  }

  lemma SumsOpenLanding(a: Tally, b: Tally, h: bool, c: bool, k: nat)
    requires a == NONE.(holders := 1, hackers := Bit(h), sailed := 1, openL := 1, freed := k, owed := 4 * Bit(c))
    requires b == NONE.(holders := 1, hackers := Bit(h), sailed := 1, openL := 1, freed := k + 1,
      owed := 4 * Bit(c))
    ensures b == Plus(a, NONE.(freed := 1))
    ensures a.holders == 1
    ensures SameLoops(a, NONE.(openL := 1, freed := k))
  {}

  lemma UnitsOpenLanding(p: Proc, q: Proc, k: nat)
    requires p.pc == OpenLanding(k) && q == p.(pc := OpenLanding(k + 1))
    ensures Unit(q) == Plus(Unit(p), NONE.(freed := 1))
    ensures StageOf(q.pc) == StageOf(p.pc)
    ensures Unit(p).holders == 1 && SameLoops(Unit(p), NONE.(openL := 1, freed := k))
  {
    hide Unit, StageOf, Row, Owed, Plus, SameLoops;
    RowOpenLanding(p, k);
    RowOpenLanding(q, k + 1);
    SumsOpenLanding(Unit(p), Unit(q), p.kind == Hacker, p.captain, k);
  }

  lemma NumbersOpenLanding(s: State, f: Ferry, t: Tally, s': State, t': Tally, k: nat)
    requires Numbers(s, f, t) && AtMost(NONE, t) && AtMost(NONE, t') && |s'.procs| == |s.procs| && Consistent(t', |s.procs|)
    requires t.openL == 1
    requires s' == s.(procs := s'.procs, landing := s.landing + 1) && t' == Plus(t, NONE.(freed := 1))
    ensures s'.exclusive + t'.holders == 1 && ModeNumbers(s', f, t') && FinishNumbers(s', t') && Taken(f, t', |s'.procs|)
  {
    TakenSame(f, t, t', |s.procs|);
    hide Taken, NoGroup, Group;
  }

  /** Opening the landing barrier for one passenger. */
  lemma StepOpenLanding(s: State, f: Ferry, i: nat)
    requires Inv(s, f) && Enabled(s, i) && s.procs[i].pc.OpenLanding? && s.procs[i].pc.freed + 1 < 4
    ensures Inv(Next(s, i), f)
  {
    hide TallyOf, ModeNumbers, FinishNumbers, Taken, NoGroup, Unit, Plus, StageOf;
    var s' := Next(s, i);
    var p := s.procs[i];
    var k := p.pc.freed;
    UnitsOpenLanding(p, s'.procs[i], k);
    NewTally(s, i, s', NONE.(freed := 1));
    Moved(s, i, s');
    var t, t' := TallyOf(s.procs), TallyOf(s'.procs);
    NumbersOpenLanding(s, f, t, s', t', k);
    SilentInv(s, f, i, s', t, t', NONE.(freed := 1));
  }

  lemma SumsOpenLandingLast(a: Tally, b: Tally, h: bool, c: bool)
    requires a == NONE.(holders := 1, hackers := Bit(h), sailed := 1, openL := 1, freed := 3, owed := 4 * Bit(c))
    requires b == NONE.(holders := 1, hackers := Bit(h), sailed := 1, owed := 4 * Bit(c))
    ensures b == Plus(a, NONE.(openL := -1, freed := -3))
    ensures a.holders == 1
    ensures SameLoops(a, NONE.(openL := 1, freed := 3))
  {}

  lemma UnitsOpenLandingLast(p: Proc, q: Proc)
    requires p.pc == OpenLanding(3) && q == p.(pc := Announced)
    ensures Unit(q) == Plus(Unit(p), NONE.(openL := -1, freed := -3))
    ensures StageOf(q.pc) == StageOf(p.pc)
    ensures Unit(p).holders == 1 && SameLoops(Unit(p), NONE.(openL := 1, freed := 3))
  {
    hide Unit, StageOf, Row, Owed, Plus, SameLoops;
    RowOpenLanding(p, 3);
    RowAnnounced(q);
    SumsOpenLandingLast(Unit(p), Unit(q), p.kind == Hacker, p.captain);
  }

  lemma NumbersOpenLandingLast(s: State, f: Ferry, t: Tally, s': State, t': Tally)
    requires Numbers(s, f, t) && AtMost(NONE, t) && AtMost(NONE, t') && |s'.procs| == |s.procs| && Consistent(t', |s.procs|)
    requires t.openL == 1 && t.freed == 3
    requires s' == s.(procs := s'.procs, landing := s.landing + 1, waiting := 0)
    requires t' == Plus(t, NONE.(openL := -1, freed := -3))
    ensures s'.exclusive + t'.holders == 1 && ModeNumbers(s', f, t') && FinishNumbers(s', t') && Taken(f, t', |s'.procs|)
  {
    TakenSame(f, t, t', |s.procs|);
    hide Taken, NoGroup, Group;
  }

  /** Opening the landing barrier for the last passenger. */
  lemma StepOpenLandingLast(s: State, f: Ferry, i: nat)
    requires Inv(s, f) && Enabled(s, i) && s.procs[i].pc.OpenLanding? && s.procs[i].pc.freed + 1 >= 4
    ensures Inv(Next(s, i), f)
  {
    hide TallyOf, ModeNumbers, FinishNumbers, Taken, NoGroup, Unit, Plus, StageOf;
    var s' := Next(s, i);
    var p := s.procs[i];
    UnitsOpenLandingLast(p, s'.procs[i]);
    NewTally(s, i, s', NONE.(openL := -1, freed := -3));
    Moved(s, i, s');
    var t, t' := TallyOf(s.procs), TallyOf(s'.procs);
    NumbersOpenLandingLast(s, f, t, s', t');
    SilentInv(s, f, i, s', t, t', NONE.(openL := -1, freed := -3));
  }

  lemma SumsFreeing(a: Tally, b: Tally, h: bool, c: bool)
    requires a == NONE.(holders := 1, freeing := 1, hackers := Bit(h))
    requires b == NONE.(holders := 1, hackers := Bit(h))
    ensures b == Plus(a, NONE.(freeing := -1))
    ensures a.holders == 1
    ensures SameLoops(a, NONE.(freeing := 1))
  {}

  lemma UnitsFreeing(p: Proc, q: Proc)
    requires p.pc == Freeing && q == p.(pc := Landed)
    ensures Unit(q) == Plus(Unit(p), NONE.(freeing := -1))
    ensures StageOf(q.pc) == StageOf(p.pc)
    ensures Unit(p).holders == 1 && SameLoops(Unit(p), NONE.(freeing := 1))
  {
    hide Unit, StageOf, Row, Owed, Plus, SameLoops;
    RowFreeing(p);
    RowLanded(q);
    SumsFreeing(Unit(p), Unit(q), p.kind == Hacker, p.captain);
  }

  lemma NumbersFreeing(s: State, f: Ferry, t: Tally, s': State, t': Tally)
    requires Numbers(s, f, t) && AtMost(NONE, t) && AtMost(NONE, t') && |s'.procs| == |s.procs| && Consistent(t', |s.procs|)
    requires t.freeing == 1
    requires s' == s.(procs := s'.procs, molo := s.molo + 1, waiting := 0) && t' == Plus(t, NONE.(freeing := -1))
    ensures s'.exclusive + t'.holders == 1 && ModeNumbers(s', f, t') && FinishNumbers(s', t') && Taken(f, t', |s'.procs|)
  {
    TakenSame(f, t, t', |s.procs|);
    hide Taken, NoGroup, Group;
  }

  /** The last passenger to land reopens the pier. */
  lemma StepFreeing(s: State, f: Ferry, i: nat)
    requires Inv(s, f) && Enabled(s, i) && s.procs[i].pc.Freeing?
    ensures Inv(Next(s, i), f)
  {
    hide TallyOf, ModeNumbers, FinishNumbers, Taken, NoGroup, Unit, Plus, StageOf;
    var s' := Next(s, i);
    var p := s.procs[i];
    UnitsFreeing(p, s'.procs[i]);
    NewTally(s, i, s', NONE.(freeing := -1));
    Moved(s, i, s');
    var t, t' := TallyOf(s.procs), TallyOf(s'.procs);
    NumbersFreeing(s, f, t, s', t');
    SilentInv(s, f, i, s', t, t', NONE.(freeing := -1));
  }

  lemma SumsFinishing(a: Tally, b: Tally, h: bool, c: bool)
    requires a == NONE.(holders := 1, hackers := Bit(h))
    requires b == NONE.(holders := 1, hackers := Bit(h), past := 1)
    ensures b == Plus(a, NONE.(past := 1))
    ensures a.holders == 1
    ensures SameLoops(a, NONE)
  {}

  lemma UnitsFinishing(p: Proc, q: Proc)
    requires p.pc == Finishing && q == p.(pc := FinishDone)
    ensures Unit(q) == Plus(Unit(p), NONE.(past := 1))
    ensures StageOf(q.pc) == StageOf(p.pc)
    ensures Unit(p).holders == 1 && SameLoops(Unit(p), NONE)
  {
    hide Unit, StageOf, Row, Owed, Plus, SameLoops;
    RowFinishing(p);
    RowFinishDone(q);
    SumsFinishing(Unit(p), Unit(q), p.kind == Hacker, p.captain);
  }

  lemma NumbersFinishing(s: State, f: Ferry, t: Tally, s': State, t': Tally)
    requires Numbers(s, f, t) && AtMost(NONE, t) && AtMost(NONE, t') && |s'.procs| == |s.procs| && Consistent(t', |s.procs|)
    requires s.toFinish + 1 != |s.procs| && t.openF == t.released == 0
    requires s' == s.(procs := s'.procs, toFinish := s.toFinish + 1) && t' == Plus(t, NONE.(past := 1))
    ensures s'.exclusive + t'.holders == 1 && ModeNumbers(s', f, t') && FinishNumbers(s', t') && Taken(f, t', |s'.procs|)
  {
    TakenSame(f, t, t', |s.procs|);
    hide Taken, NoGroup, Group;
  }

  /** Counting a process that has landed. */
  lemma StepFinishing(s: State, f: Ferry, i: nat)
    requires Inv(s, f) && Enabled(s, i) && s.procs[i].pc.Finishing? && s.toFinish + 1 != |s.procs|
    ensures Inv(Next(s, i), f)
  {
    hide TallyOf, ModeNumbers, FinishNumbers, Taken, NoGroup, Unit, Plus, StageOf;
    var s' := Next(s, i);
    var p := s.procs[i];
    UnitsFinishing(p, s'.procs[i]);
    NewTally(s, i, s', NONE.(past := 1));
    Moved(s, i, s');
    var t, t' := TallyOf(s.procs), TallyOf(s'.procs);
    NumbersFinishing(s, f, t, s', t');
    SilentInv(s, f, i, s', t, t', NONE.(past := 1));
  }

  lemma SumsFinishingLast(a: Tally, b: Tally, h: bool, c: bool)
    requires a == NONE.(holders := 1, hackers := Bit(h))
    requires b == NONE.(holders := 1, hackers := Bit(h), past := 1, openF := 1, released := 0)
    ensures b == Plus(a, NONE.(past := 1, openF := 1))
    ensures a.holders == 1
    ensures SameLoops(a, NONE)
  {}

  lemma UnitsFinishingLast(p: Proc, q: Proc)
    requires p.pc == Finishing && q == p.(pc := OpenFinish(0))
    ensures Unit(q) == Plus(Unit(p), NONE.(past := 1, openF := 1))
    ensures StageOf(q.pc) == StageOf(p.pc)
    ensures Unit(p).holders == 1 && SameLoops(Unit(p), NONE)
  {
    hide Unit, StageOf, Row, Owed, Plus, SameLoops;
    RowFinishing(p);
    RowOpenFinish(q, 0);
    SumsFinishingLast(Unit(p), Unit(q), p.kind == Hacker, p.captain);
  }

  lemma NumbersFinishingLast(s: State, f: Ferry, t: Tally, s': State, t': Tally)
    requires Numbers(s, f, t) && AtMost(NONE, t) && AtMost(NONE, t') && |s'.procs| == |s.procs| && Consistent(t', |s.procs|)
    requires s.toFinish + 1 == |s.procs| && t.openF == t.released == 0
    requires s' == s.(procs := s'.procs, toFinish := s.toFinish + 1) && t' == Plus(t, NONE.(past := 1, openF := 1))
    ensures s'.exclusive + t'.holders == 1 && ModeNumbers(s', f, t') && FinishNumbers(s', t') && Taken(f, t', |s'.procs|)
  {
    TakenSame(f, t, t', |s.procs|);
    hide Taken, NoGroup, Group;
  }

  /** Counting the last process that has landed, which opens the final barrier. */
  lemma StepFinishingLast(s: State, f: Ferry, i: nat)
    requires Inv(s, f) && Enabled(s, i) && s.procs[i].pc.Finishing? && s.toFinish + 1 == |s.procs|
    ensures Inv(Next(s, i), f)
  {
    hide TallyOf, ModeNumbers, FinishNumbers, Taken, NoGroup, Unit, Plus, StageOf;
    var s' := Next(s, i);
    var p := s.procs[i];
    UnitsFinishingLast(p, s'.procs[i]);
    NewTally(s, i, s', NONE.(past := 1, openF := 1));
    Moved(s, i, s');
    var t, t' := TallyOf(s.procs), TallyOf(s'.procs);
    NumbersFinishingLast(s, f, t, s', t');
    SilentInv(s, f, i, s', t, t', NONE.(past := 1, openF := 1));
  }

  lemma SumsOpenFinish(a: Tally, b: Tally, h: bool, c: bool, k: nat)
    requires a == NONE.(holders := 1, hackers := Bit(h), past := 1, openF := 1, released := k)
    requires b == NONE.(holders := 1, hackers := Bit(h), past := 1, openF := 1, released := k + 1)
    ensures b == Plus(a, NONE.(released := 1))
    ensures a.holders == 1
    ensures SameLoops(a, NONE.(openF := 1, released := k))
  {}

  lemma UnitsOpenFinish(p: Proc, q: Proc, k: nat)
    requires p.pc == OpenFinish(k) && q == p.(pc := OpenFinish(k + 1))
    ensures Unit(q) == Plus(Unit(p), NONE.(released := 1))
    ensures StageOf(q.pc) == StageOf(p.pc)
    ensures Unit(p).holders == 1 && SameLoops(Unit(p), NONE.(openF := 1, released := k))
  {
    hide Unit, StageOf, Row, Owed, Plus, SameLoops;
    RowOpenFinish(p, k);
    RowOpenFinish(q, k + 1);
    SumsOpenFinish(Unit(p), Unit(q), p.kind == Hacker, p.captain, k);
  }

  lemma NumbersOpenFinish(s: State, f: Ferry, t: Tally, s': State, t': Tally, k: nat)
    requires Numbers(s, f, t) && AtMost(NONE, t) && AtMost(NONE, t') && |s'.procs| == |s.procs| && Consistent(t', |s.procs|)
    requires t.openF == 1
    requires s' == s.(procs := s'.procs, finish := s.finish + 1) && t' == Plus(t, NONE.(released := 1))
    ensures s'.exclusive + t'.holders == 1 && ModeNumbers(s', f, t') && FinishNumbers(s', t') && Taken(f, t', |s'.procs|)
  {
    TakenSame(f, t, t', |s.procs|);
    hide Taken, NoGroup, Group;
  }

  /** Opening the final barrier for one process. */
  lemma StepOpenFinish(s: State, f: Ferry, i: nat)
    requires Inv(s, f) && Enabled(s, i) && s.procs[i].pc.OpenFinish? && s.procs[i].pc.released + 1 < |s.procs|
    ensures Inv(Next(s, i), f)
  {
    hide TallyOf, ModeNumbers, FinishNumbers, Taken, NoGroup, Unit, Plus, StageOf;
    var s' := Next(s, i);
    var p := s.procs[i];
    var k := p.pc.released;
    UnitsOpenFinish(p, s'.procs[i], k);
    NewTally(s, i, s', NONE.(released := 1));
    Moved(s, i, s');
    var t, t' := TallyOf(s.procs), TallyOf(s'.procs);
    NumbersOpenFinish(s, f, t, s', t', k);
    SilentInv(s, f, i, s', t, t', NONE.(released := 1));
  }

  lemma SumsOpenFinishLast(a: Tally, b: Tally, h: bool, c: bool, k: int)
    requires a == NONE.(holders := 1, hackers := Bit(h), past := 1, openF := 1, released := k)
    requires b == NONE.(holders := 1, hackers := Bit(h), past := 1)
    ensures b == Plus(a, NONE.(openF := -1, released := -k))
    ensures a.holders == 1
    ensures SameLoops(a, NONE.(openF := 1, released := k))
  {}

  lemma UnitsOpenFinishLast(p: Proc, q: Proc, k: int)
    requires p.pc.OpenFinish? && k == p.pc.released && q == p.(pc := FinishDone)
    ensures Unit(q) == Plus(Unit(p), NONE.(openF := -1, released := -k))
    ensures StageOf(q.pc) == StageOf(p.pc)
    ensures Unit(p).holders == 1 && SameLoops(Unit(p), NONE.(openF := 1, released := k))
  {
    hide Unit, StageOf, Row, Owed, Plus, SameLoops;
    RowOpenFinish(p, k);
    RowFinishDone(q);
    SumsOpenFinishLast(Unit(p), Unit(q), p.kind == Hacker, p.captain, k);
  }

  lemma NumbersOpenFinishLast(s: State, f: Ferry, t: Tally, s': State, t': Tally, k: int)
    requires Numbers(s, f, t) && AtMost(NONE, t) && AtMost(NONE, t') && |s'.procs| == |s.procs| && Consistent(t', |s.procs|)
    requires t.openF == 1 && t.released == k == |s.procs| - 1
    requires s' == s.(procs := s'.procs, finish := s.finish + 1) && t' == Plus(t, NONE.(openF := -1, released := -k))
    ensures s'.exclusive + t'.holders == 1 && ModeNumbers(s', f, t') && FinishNumbers(s', t') && Taken(f, t', |s'.procs|)
  {
    TakenSame(f, t, t', |s.procs|);
    hide Taken, NoGroup, Group;
  }

  /** Opening the final barrier for the last process. */
  lemma StepOpenFinishLast(s: State, f: Ferry, i: nat)
    requires Inv(s, f) && Enabled(s, i) && s.procs[i].pc.OpenFinish? && s.procs[i].pc.released + 1 >= |s.procs|
    ensures Inv(Next(s, i), f)
  {
    hide TallyOf, ModeNumbers, FinishNumbers, Taken, NoGroup, Unit, Plus, StageOf;
    var s' := Next(s, i);
    var p := s.procs[i];
    var k: int := p.pc.released;
    UnitsOpenFinishLast(p, s'.procs[i], k);
    NewTally(s, i, s', NONE.(openF := -1, released := -k));
    Moved(s, i, s');
    var t, t' := TallyOf(s.procs), TallyOf(s'.procs);
    NumbersOpenFinishLast(s, f, t, s', t', k);
    SilentInv(s, f, i, s', t, t', NONE.(openF := -1, released := -k));
  }

  lemma SumsLoadHacker(a: Tally, b: Tally, h: bool, c: bool, boat: Boat, k: nat)
    requires a == NONE.(holders := 1, loading := 1,
      postedH := if k < HackerSeats(boat) then k else HackerSeats(boat),
      postedS := if k < HackerSeats(boat) then 0 else k - HackerSeats(boat), hackers := Bit(h),
      waitH := Bit(h), waitS := Bit(!h))
    requires b == NONE.(holders := 1, loading := 1,
      postedH := if k + 1 < HackerSeats(boat) then k + 1 else HackerSeats(boat),
      postedS := if k + 1 < HackerSeats(boat) then 0 else k + 1 - HackerSeats(boat), hackers := Bit(h),
      waitH := Bit(h), waitS := Bit(!h))
    requires k < HackerSeats(boat)
    ensures b == Plus(a, NONE.(postedH := 1))
    ensures a.loading == 1
  {}

  lemma UnitsLoadHacker(p: Proc, q: Proc, boat: Boat, k: nat)
    requires p.pc == Loading(boat, k) && k < HackerSeats(boat) && q == p.(pc := Loading(boat, k + 1))
    ensures Unit(q) == Plus(Unit(p), NONE.(postedH := 1))
    ensures StageOf(q.pc) == StageOf(p.pc)
    ensures Unit(p).loading == 1
  {
    hide Unit, StageOf, Row, Owed, Plus, SameLoops;
    RowLoading(p, boat, k);
    RowLoading(q, boat, k + 1);
    SumsLoadHacker(Unit(p), Unit(q), p.kind == Hacker, p.captain, boat, k);
  }

  lemma NumbersLoadHacker(s: State, f: Ferry, t: Tally, s': State, t': Tally, b: Boat, k: nat)
    requires Numbers(s, f, t) && AtMost(NONE, t) && AtMost(NONE, t') && |s'.procs| == |s.procs| && Consistent(t', |s.procs|)
    requires t.loading >= 1
    requires s' == s.(procs := s'.procs, hacker := s.hacker + 1) && t' == Plus(t, NONE.(postedH := 1))
    ensures s'.exclusive + t'.holders == 1 && ModeNumbers(s', f, t') && FinishNumbers(s', t') && Taken(f, t', |s'.procs|)
  {
    TakenSame(f, t, t', |s.procs|);
    hide Taken, NoGroup, Group;
  }

  /** The captain admits one hacker. */
  lemma StepLoadHacker(s: State, f: Ferry, i: nat)
    requires Inv(s, f) && Enabled(s, i) && s.procs[i].pc.Loading? && s.procs[i].pc.posted + 1 < 4
    requires s.procs[i].pc.posted < HackerSeats(s.procs[i].pc.boat)
    ensures Inv(Next(s, i), f)
  {
    hide TallyOf, ModeNumbers, FinishNumbers, Taken, NoGroup, Unit, Plus, StageOf;
    var s' := Next(s, i);
    var p := s.procs[i];
    var b := p.pc.boat;
    var k := p.pc.posted;
    UnitsLoadHacker(p, s'.procs[i], b, k);
    NewTally(s, i, s', NONE.(postedH := 1));
    Moved(s, i, s');
    var t, t' := TallyOf(s.procs), TallyOf(s'.procs);
    NumbersLoadHacker(s, f, t, s', t', b, k);
    SilentInv(s, f, i, s', t, t', NONE.(postedH := 1));
  }

  lemma SumsLoadSerf(a: Tally, b: Tally, h: bool, c: bool, boat: Boat, k: nat)
    requires a == NONE.(holders := 1, loading := 1,
      postedH := if k < HackerSeats(boat) then k else HackerSeats(boat),
      postedS := if k < HackerSeats(boat) then 0 else k - HackerSeats(boat), hackers := Bit(h),
      waitH := Bit(h), waitS := Bit(!h))
    requires b == NONE.(holders := 1, loading := 1,
      postedH := if k + 1 < HackerSeats(boat) then k + 1 else HackerSeats(boat),
      postedS := if k + 1 < HackerSeats(boat) then 0 else k + 1 - HackerSeats(boat), hackers := Bit(h),
      waitH := Bit(h), waitS := Bit(!h))
    requires k >= HackerSeats(boat)
    ensures b == Plus(a, NONE.(postedS := 1))
    ensures a.loading == 1
  {}

  lemma UnitsLoadSerf(p: Proc, q: Proc, boat: Boat, k: nat)
    requires p.pc == Loading(boat, k) && k >= HackerSeats(boat) && q == p.(pc := Loading(boat, k + 1))
    ensures Unit(q) == Plus(Unit(p), NONE.(postedS := 1))
    ensures StageOf(q.pc) == StageOf(p.pc)
    ensures Unit(p).loading == 1
  {
    hide Unit, StageOf, Row, Owed, Plus, SameLoops;
    RowLoading(p, boat, k);
    RowLoading(q, boat, k + 1);
    SumsLoadSerf(Unit(p), Unit(q), p.kind == Hacker, p.captain, boat, k);
  }

  lemma NumbersLoadSerf(s: State, f: Ferry, t: Tally, s': State, t': Tally, b: Boat, k: nat)
    requires Numbers(s, f, t) && AtMost(NONE, t) && AtMost(NONE, t') && |s'.procs| == |s.procs| && Consistent(t', |s.procs|)
    requires t.loading >= 1
    requires s' == s.(procs := s'.procs, serf := s.serf + 1) && t' == Plus(t, NONE.(postedS := 1))
    ensures s'.exclusive + t'.holders == 1 && ModeNumbers(s', f, t') && FinishNumbers(s', t') && Taken(f, t', |s'.procs|)
  {
    TakenSame(f, t, t', |s.procs|);
    hide Taken, NoGroup, Group;
  }

  /** The captain admits one serf. */
  lemma StepLoadSerf(s: State, f: Ferry, i: nat)
    requires Inv(s, f) && Enabled(s, i) && s.procs[i].pc.Loading? && s.procs[i].pc.posted + 1 < 4
    requires s.procs[i].pc.posted >= HackerSeats(s.procs[i].pc.boat)
    ensures Inv(Next(s, i), f)
  {
    hide TallyOf, ModeNumbers, FinishNumbers, Taken, NoGroup, Unit, Plus, StageOf;
    var s' := Next(s, i);
    var p := s.procs[i];
    var b := p.pc.boat;
    var k := p.pc.posted;
    UnitsLoadSerf(p, s'.procs[i], b, k);
    NewTally(s, i, s', NONE.(postedS := 1));
    Moved(s, i, s');
    var t, t' := TallyOf(s.procs), TallyOf(s'.procs);
    NumbersLoadSerf(s, f, t, s', t', b, k);
    SilentInv(s, f, i, s', t, t', NONE.(postedS := 1));
  }

  predicate LockMove(pc: Pc, pc': Pc, d: int) {
    match pc
    case Arriving => pc' == Starting && d == 1
    case AwaitCount => pc' == Counting && d == 1
    case Reenter => pc' == Deciding && d == 1
    case AwaitBoarding => pc' == Boarding && d == 1
    case AwaitAnnounce => pc' == Announcing && d == 1
    case AwaitLanding => pc' == Landing && d == 1
    case AwaitFinish => pc' == Finishing && d == 1
    case AwaitPrint => pc' == Printing && d == 1
    case Leaving => pc' == OnPier && d == -1
    case Boarded => pc' == AtBoarding && d == -1
    case Announced => pc' == AtLanding && d == -1
    case Landed => pc' == AwaitFinish && d == -1
    case FinishDone => pc' == AtFinish && d == -1
    case _ => false
  }

  lemma LockNumbers(s: State, f: Ferry, t: Tally, s': State, t': Tally, d: int)
    requires Numbers(s, f, t) && |s'.procs| == |s.procs| && s.exclusive - d >= 0
    requires s' == s.(procs := s'.procs, exclusive := s.exclusive - d) && t' == Plus(t, NONE.(holders := d))
    ensures s'.exclusive + t'.holders == 1 && ModeNumbers(s', f, t') && FinishNumbers(s', t') && Taken(f, t', |s'.procs|)
  {
    TakenSame(f, t, t', |s.procs|);
    hide Taken, NoGroup, Group;
  }

  lemma LockSums(a: Tally, b: Tally, free: Tally, d: int)
    requires free.holders == 0 && (d == 1 || d == -1)
    requires if d == 1 then a == free && b == free.(holders := 1) else b == free && a == free.(holders := 1)
    ensures b == Plus(a, NONE.(holders := d))
  {}

  lemma LockUnits(p: Proc, q: Proc, d: int)
    requires q == p.(pc := q.pc) && LockMove(p.pc, q.pc, d)
    ensures Unit(q) == Plus(Unit(p), NONE.(holders := d))
  {
    hide Unit, StageOf, Row, Owed, Plus;
    var h := p.kind == Hacker;
    match p.pc
    case Arriving =>
      RowArriving(p);
      RowStarting(q);
      LockSums(Unit(p), Unit(q), NONE.(hackers := Bit(h), awayH := Bit(h), awayS := Bit(!h)), 1);
    case AwaitCount =>
      RowAwaitCount(p);
      RowCounting(q);
      LockSums(Unit(p), Unit(q), NONE.(counting := 1, hackers := Bit(h), awayH := Bit(h), awayS := Bit(!h)), 1);
    case Reenter =>
      RowReenter(p);
      RowDeciding(q);
      LockSums(Unit(p), Unit(q), NONE.(deciding := 1, hackers := Bit(h), waitH := Bit(h), waitS := Bit(!h)), 1);
    case AwaitBoarding =>
      RowAwaitBoarding(p);
      RowBoarding(q);
      LockSums(Unit(p), Unit(q), NONE.(boardH := Bit(h), boardS := Bit(!h), hackers := Bit(h), waitH := Bit(h), waitS := Bit(!h), owed := 4 * Bit(p.captain)), 1);
    case AwaitAnnounce =>
      RowAwaitAnnounce(p);
      RowAnnouncing(q);
      LockSums(Unit(p), Unit(q), NONE.(hackers := Bit(h), aboard := 1, toAnnounce := 1, owed := 4 * Bit(p.captain)), 1);
    case AwaitLanding =>
      RowAwaitLanding(p);
      RowLanding(q);
      LockSums(Unit(p), Unit(q), NONE.(hackers := Bit(h), sailed := 1, passed := 1, toLand := 1), 1);
    case AwaitFinish =>
      RowAwaitFinish(p);
      RowFinishing(q);
      LockSums(Unit(p), Unit(q), NONE.(hackers := Bit(h)), 1);
    case AwaitPrint =>
      RowAwaitPrint(p);
      RowPrinting(q);
      LockSums(Unit(p), Unit(q), NONE.(hackers := Bit(h), past := 1, out := 1), 1);
    case Leaving =>
      RowLeaving(p);
      RowOnPier(q);
      LockSums(Unit(p), Unit(q), NONE.(hackers := Bit(h), waitH := Bit(h), waitS := Bit(!h), owed := 4 * Bit(p.captain)), -1);
    case Boarded =>
      RowBoarded(p);
      RowAtBoarding(q);
      LockSums(Unit(p), Unit(q), NONE.(hackers := Bit(h), aboard := 1, owed := 4 * Bit(p.captain)), -1);
    case Announced =>
      RowAnnounced(p);
      RowAtLanding(q);
      LockSums(Unit(p), Unit(q), NONE.(hackers := Bit(h), sailed := 1, owed := 4 * Bit(p.captain)), -1);
    case Landed =>
      RowLanded(p);
      RowAwaitFinish(q);
      LockSums(Unit(p), Unit(q), NONE.(hackers := Bit(h)), -1);
    case FinishDone =>
      RowFinishDone(p);
      RowAtFinish(q);
      LockSums(Unit(p), Unit(q), NONE.(hackers := Bit(h), past := 1), -1);
    case _ =>
  }

  lemma LockTarget(p: Proc, pc: Pc, d: int, n: nat)
    requires LockMove(p.pc, pc, d)
    ensures StageOf(pc) == StageOf(p.pc) && ProcOk(p.(pc := pc), n)
    ensures !pc.Loading? && !pc.Reenter? && (pc.Deciding? ==> p.pc.Reenter?)
  {}

  /** Taking or releasing EXCLUSIVE without printing. */
  lemma LockInv(s: State, f: Ferry, i: nat, s': State, d: int)
    requires Inv(s, f) && i < |s.procs| && |s'.procs| == |s.procs| && s.exclusive - d >= 0
    requires s'.procs == s.procs[i := s.procs[i].(pc := s'.procs[i].pc)]
    requires LockMove(s.procs[i].pc, s'.procs[i].pc, d) && s' == s.(procs := s'.procs, exclusive := s.exclusive - d)
    ensures Inv(s', f)
  {
    hide TallyOf, ModeNumbers, FinishNumbers, Taken, NoGroup, Unit, Plus, StageOf, LockMove;
    LockUnits(s.procs[i], s'.procs[i], d);
    LockTarget(s.procs[i], s'.procs[i].pc, d, |s.procs|);
    NewTally(s, i, s', NONE.(holders := d));
    var t, t' := TallyOf(s.procs), TallyOf(s'.procs);
    LockNumbers(s, f, t, s', t', d);
    SilentInv(s, f, i, s', t, t', NONE.(holders := d));
  }

  /** What the step of a process that takes or releases EXCLUSIVE does. */
  lemma LockNext(s: State, i: nat, pc: Pc, d: int)
    requires Enabled(s, i) && LockMove(s.procs[i].pc, pc, d)
    ensures s.exclusive - d >= 0 && Next(s, i) == Goto(s, i, pc).(exclusive := s.exclusive - d)
  {}

  /** Taking or releasing EXCLUSIVE keeps the invariant, wherever the process stands. */
  lemma StepLock(s: State, f: Ferry, i: nat, pc: Pc, d: int)
    requires Inv(s, f) && Enabled(s, i) && LockMove(s.procs[i].pc, pc, d)
    ensures Inv(Next(s, i), f)
  {
    LockNext(s, i, pc, d);
    hide Inv, Next, LockMove;
    LockInv(s, f, i, Next(s, i), d);
  }
}
