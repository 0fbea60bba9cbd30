/** The steps of the river-crossing program that print a line or change who is captain, each matched by
    the ferry accepting that line; and the refinement theorem over every schedule. */
module Voyage {
  import opened Wrappers
  import opened River
  import opened Ferry
  import opened Tally
  import opened Crossing

  /** Process i moved; its new stage is recorded in f', whose people are those of f. */
  ghost predicate Recorded(s: State, f: Ferry, i: nat, s': State, f': Ferry) {
    && i < |s.procs| && |s'.procs| == |s.procs| && s'.procs == s.procs[i := s'.procs[i]]
    && |f.stage| == |f.kinds| == |s.procs| && f'.kinds == f.kinds
    && s'.procs[i].kind == s.procs[i].kind && ProcOk(s'.procs[i], |s.procs|)
    && f'.stage == f.stage[i := StageOf(s'.procs[i].pc)]
    && s'.counter == |s'.log|
  }

  /** People at sea are counted with the boat until it has landed. */
  lemma TakenMove(f: Ferry, t: Tally, f': Ferry, t': Tally, n: nat)
    requires Taken(f, t, n) && t'.hackers == t.hackers && t'.awayH == t.awayH && t'.awayS == t.awayS
    requires f'.hackers == f.hackers && f'.serfs == f.serfs
    requires f'.voyages + (if f'.mode == AtPier then 0 else 1) == f.voyages + (if f.mode == AtPier then 0 else 1)
    ensures Taken(f', t', n)
  {}

  /** The captain flag of everybody but i still means what it should. */
  ghost predicate FlagsKeep(f: Ferry, i: nat, f': Ferry, t: Tally, t': Tally) {
    forall j: nat :: j < |f.stage| && j != i && IsEarly(f.stage[j]) ==>
      ((Loaded(f', t') && j == f'.captain) <==> (Loaded(f, t) && j == f.captain))
  }

  lemma RecordedInv(s: State, f: Ferry, i: nat, s': State, f': Ferry, t: Tally, t': Tally)
    requires Inv(s, f) && Recorded(s, f, i, s', f') && t == TallyOf(s.procs) && t' == TallyOf(s'.procs)
    requires t'.loading == 0 && FlagsKeep(f, i, f', t, t')
    requires IsEarly(f'.stage[i]) ==> (s'.procs[i].captain <==> Loaded(f', t') && i == f'.captain)
    requires t.deciding == 0 || f'.mode == AtPier || (f.mode != AtPier && f'.captain == f.captain)
    requires s'.procs[i].pc.Reenter? ==> f'.mode == AtPier || i == f'.captain
    requires !s'.procs[i].pc.Deciding?
    requires s'.exclusive + t'.holders == 1 && NoGroup(f'.hackers, f'.serfs) && ModeNumbers(s', f', t')
    requires FinishNumbers(s', t') && Taken(f', t', |s'.procs|)
    ensures Inv(s', f')
  {
    hide TallyOf, StageOf, ProcOk, Loaded, ModeNumbers, FinishNumbers, Taken, NoGroup, HackerSeats;
    NoneLoading(s.procs);
    NoneLoading(s'.procs);
  }

  /** One process is counted in the place where it stands. */
  lemma StageUnit(p: Proc)
    ensures var u, g := Unit(p), StageOf(p.pc);
      && (g == Away ==> u.awayH + u.awayS == 1) && (g == Waiting ==> u.waitH == Bit(p.kind == Hacker) && u.waitS == Bit(p.kind == Serf))
      && (g == Aboard ==> u.aboard == 1) && (g == Sailed ==> u.sailed == 1)
  {
    hide Owed;
  }

  lemma Standing(ps: seq<Proc>, j: nat)
    requires j < |ps|
    ensures var t, g := TallyOf(ps), StageOf(ps[j].pc);
      && (g == Away ==> t.awayH + t.awayS > 0) && (g == Waiting ==> t.waitH >= Bit(ps[j].kind == Hacker) && t.waitS >= Bit(ps[j].kind == Serf))
      && (g == Aboard ==> t.aboard > 0) && (g == Sailed ==> t.sailed > 0)
  {
    hide TallyOf, Unit, StageOf;
    UnitAtMost(ps, j);
    StageUnit(ps[j]);
    TallyNonnegative(ps);
  }

  // ----- a process reports that it started -----

  lemma SumsStarting(a: Tally, b: Tally, h: bool, c: bool)
    requires a == NONE.(holders := 1, hackers := Bit(h), awayH := Bit(h), awayS := Bit(!h))
    requires b == NONE.(hackers := Bit(h), awayH := Bit(h), awayS := Bit(!h))
    ensures b == Plus(a, NONE.(holders := -1))
  {}

  lemma UnitsStarting(p: Proc, q: Proc)
    requires p.pc == Starting && q == p.(pc := AtMolo)
    ensures Unit(q) == Plus(Unit(p), NONE.(holders := -1)) && StageOf(p.pc) == StageOf(q.pc) == Away
    ensures Unit(p).holders == 1 && SameLoops(Unit(p), NONE)
  {
    hide Unit, StageOf, Row, Owed, Plus;
    RowStarting(p);
    RowAtMolo(q);
    SumsStarting(Unit(p), Unit(q), p.kind == Hacker, p.captain);
  }

  lemma NumbersStarting(s: State, f: Ferry, t: Tally, s': State, t': Tally, e: Event)
    requires Numbers(s, f, t) && |s'.procs| == |s.procs|
    requires s' == s.(procs := s'.procs, exclusive := s.exclusive + 1, counter := s.counter + 1, log := s.log + [e])
    requires t' == Plus(t, NONE.(holders := -1))
    ensures s'.exclusive + t'.holders == 1 && ModeNumbers(s', f, t') && FinishNumbers(s', t') && Taken(f, t', |s'.procs|)
  {
    TakenSame(f, t, t', |s.procs|);
    hide Taken;
  }

  lemma StepStarting(s: State, f: Ferry, i: nat)
    requires Inv(s, f) && Enabled(s, i) && s.procs[i].pc.Starting?
    ensures Accept(f, EStarted(i)) == Some(f) && Inv(Next(s, i), f)
  {
    hide TallyOf, ModeNumbers, FinishNumbers, Taken, NoGroup, Unit, StageOf;
    var s' := Next(s, i);
    UnitsStarting(s.procs[i], s'.procs[i]);
    NewTally(s, i, s', NONE.(holders := -1));
    Moved(s, i, s');
    var t, t' := TallyOf(s.procs), TallyOf(s'.procs);
    NumbersStarting(s, f, t, s', t', EStarted(i));
    assert f.stage == f.stage[i := Away];
    RecordedInv(s, f, i, s', f, t, t');
  }

  // ----- a process is counted on the pier -----

  function CountedUnits(h: bool): Tally {
    NONE.(holders := -1, counting := -1, deciding := 1, awayH := if h then -1 else 0, awayS := if h then 0 else -1, waitH := Bit(h), waitS := Bit(!h))
  }

  lemma SumsCounting(a: Tally, b: Tally, h: bool, c: bool)
    requires a == NONE.(holders := 1, counting := 1, hackers := Bit(h), awayH := Bit(h), awayS := Bit(!h))
    requires b == NONE.(deciding := 1, hackers := Bit(h), waitH := Bit(h), waitS := Bit(!h))
    ensures b == Plus(a, CountedUnits(h))
  {}

  lemma UnitsCounting(p: Proc, q: Proc)
    requires p.pc == Counting && q == p.(pc := Reenter)
    ensures Unit(q) == Plus(Unit(p), CountedUnits(p.kind == Hacker))
  {
    hide Unit, StageOf, Row, Owed, Plus, SameLoops, CountedUnits;
    RowCounting(p);
    RowReenter(q);
    SumsCounting(Unit(p), Unit(q), p.kind == Hacker, p.captain);
  }

  lemma CountingPlace(p: Proc, q: Proc)
    requires p.pc == Counting && q.pc == Reenter
    ensures StageOf(p.pc) == Away && StageOf(q.pc) == Waiting
    ensures Unit(p).counting == 1 && Unit(p).holders == 1 && SameLoops(Unit(p), NONE)
  {
    hide Unit, StageOf, Row, Owed;
    RowCounting(p);
    RowReenter(q);
  }

  /** What joining does: the person waits, or becomes captain of a boat that leaves nobody of its kind. */
  predicate Joined(f: Ferry, i: nat, h: bool, f': Ferry) {
    && i < |f.stage| && f'.kinds == f.kinds && f'.stage == f.stage[i := Waiting] && f'.voyages == f.voyages
    && NoGroup(f'.hackers, f'.serfs)
    && match f'.mode
       case AtPier => f'.hackers == f.hackers + Bit(h) && f'.serfs == f.serfs + Bit(!h)
       case Filling(hs, ss) =>
         && f'.captain == i && hs + ss == 4 && hs % 2 == 0
         && f'.hackers + hs == f.hackers + Bit(h) && f'.serfs + ss == f.serfs + Bit(!h)
         && (if h then f'.hackers == 0 else f'.serfs == 0)
         && Group(f'.hackers + hs, f'.serfs + ss).Some? && HackerSeats(Group(f'.hackers + hs, f'.serfs + ss).value) == hs
       case _ => false
  }

  lemma JoinShape(f: Ferry, i: nat, h: bool)
    requires i < |f.stage| && f.mode == AtPier && NoGroup(f.hackers, f.serfs)
    ensures Joined(f, i, h, Join(f, i, f.hackers + Bit(h), f.serfs + Bit(!h)))
  {}

  lemma NumbersCounting(s: State, f: Ferry, t: Tally, s': State, f': Ferry, t': Tally, h: bool, i: nat, e: Event)
    requires Numbers(s, f, t) && AtMost(NONE, t) && t.counting >= 1 && |s'.procs| == |s.procs|
    requires i < |f.kinds| == |f.stage| == |s.procs| && h == (f.kinds[i] == Hacker)
    requires s' == s.(procs := s'.procs, exclusive := s.exclusive + 1, counter := s.counter + 1, log := s.log + [e],
      hackers := s.hackers + Bit(h), serfs := s.serfs + Bit(!h))
    requires t' == Plus(t, CountedUnits(h))
    requires Joined(f, i, h, f')
    ensures s'.exclusive + t'.holders == 1 && ModeNumbers(s', f', t') && FinishNumbers(s', t') && Taken(f', t', |s'.procs|)
  {
    hide Group, HackerSeats, NoGroup;
  }

  lemma CountingAtPier(s: State, f: Ferry, t: Tally)
    requires Numbers(s, f, t) && AtMost(NONE, t) && t.counting >= 1
    ensures f.mode == AtPier && s.hackers == f.hackers && s.serfs == f.serfs && t.deciding == t.loading == 0
  {}

  lemma CountingTally(s: State, f: Ferry, i: nat)
    requires Inv(s, f) && Enabled(s, i) && s.procs[i].pc.Counting?
    ensures var s', p := Next(s, i), s.procs[i];
      var t := TallyOf(s.procs);
      && TallyOf(s'.procs) == Plus(t, CountedUnits(p.kind == Hacker)) && AtMost(NONE, t) && t.counting >= 1
      && StageOf(p.pc) == Away && StageOf(s'.procs[i].pc) == Waiting
  {
    hide TallyOf, ModeNumbers, FinishNumbers, Taken, NoGroup, Unit, StageOf, Plus;
    var s' := Next(s, i);
    var p, q := s.procs[i], s'.procs[i];
    UnitsCounting(p, q);
    CountingPlace(p, q);
    NewTally(s, i, s', CountedUnits(p.kind == Hacker));
    Moved(s, i, s');
  }

  lemma JoinAccepted(f: Ferry, i: nat, h: bool)
    requires i < |f.stage| == |f.kinds| && f.mode == AtPier && f.stage[i] == Away && h == (f.kinds[i] == Hacker)
    ensures var hs, ss := f.hackers + Bit(h), f.serfs + Bit(!h);
      Accept(f, EWaiting(i, hs, ss)) == Some(Join(f, i, hs, ss))
  {
    hide Join;
  }

  lemma StepCounting(s: State, f: Ferry, i: nat)
    requires Inv(s, f) && Enabled(s, i) && s.procs[i].pc.Counting?
    ensures var s' := Next(s, i);
      var e := EWaiting(i, s'.hackers, s'.serfs);
      s'.log == s.log + [e] && Accept(f, e).Some? && Inv(s', Accept(f, e).value)
  {
    hide TallyOf, ModeNumbers, FinishNumbers, Taken, NoGroup, Unit, StageOf, Group, HackerSeats, SerfSeats, Accept, Join, Plus;
    var s' := Next(s, i);
    var e := EWaiting(i, s'.hackers, s'.serfs);
    var h := s.procs[i].kind == Hacker;
    var t, t' := TallyOf(s.procs), TallyOf(s'.procs);
    CountingTally(s, f, i);
    CountingAtPier(s, f, t);
    JoinShape(f, i, h);
    JoinAccepted(f, i, h);
    var f' := Join(f, i, f.hackers + Bit(h), f.serfs + Bit(!h));
    NumbersCounting(s, f, t, s', f', t', h, i, e);
    CountedLoads(t, t', h);
    RecordedInv(s, f, i, s', f', t, t');
  }

  lemma CountedLoads(t: Tally, t': Tally, h: bool)
    requires t' == Plus(t, CountedUnits(h)) && AtMost(NONE, t)
    ensures t'.deciding == t.deciding + 1 && t'.loading == t.loading
  {}

  // ----- the decision -----

  lemma SumsPassing(a: Tally, b: Tally, h: bool, c: bool)
    requires a == NONE.(holders := 1, deciding := 1, hackers := Bit(h), waitH := Bit(h), waitS := Bit(!h))
    requires b == NONE.(holders := 1, passing := 1, hackers := Bit(h), waitH := Bit(h), waitS := Bit(!h))
    ensures b == Plus(a, NONE.(deciding := -1, passing := 1))
  {}

  lemma UnitsPassing(p: Proc, q: Proc)
    requires p.pc == Deciding && q == p.(pc := Passing)
    ensures Unit(q) == Plus(Unit(p), NONE.(deciding := -1, passing := 1))
    ensures StageOf(q.pc) == StageOf(p.pc) == Waiting
    ensures Unit(p).deciding == 1 && Unit(p).holders == 1 && SameLoops(Unit(p), NONE)
  {
    hide Unit, StageOf, Row, Owed, Plus;
    RowDeciding(p);
    RowPassing(q);
    SumsPassing(Unit(p), Unit(q), p.kind == Hacker, p.captain);
  }

  lemma StartLoading(q: Proc, b: Boat)
    requires q.pc == Loading(b, 0)
    ensures var h := q.kind == Hacker;
      Unit(q) == NONE.(holders := 1, loading := 1, hackers := Bit(h), waitH := Bit(h), waitS := Bit(!h))
  {
    hide Unit, StageOf, Row, Owed;
    RowLoading(q, b, 0);
  }

  lemma SumsLoading(a: Tally, b: Tally, h: bool, c: bool)
    requires a == NONE.(holders := 1, deciding := 1, hackers := Bit(h), waitH := Bit(h), waitS := Bit(!h))
    requires b == NONE.(holders := 1, loading := 1, hackers := Bit(h), waitH := Bit(h), waitS := Bit(!h))
    ensures b == Plus(a, NONE.(deciding := -1, loading := 1))
  {}

  lemma UnitsLoading(p: Proc, q: Proc, b: Boat)
    requires p.pc == Deciding && q == p.(pc := Loading(b, 0))
    ensures Unit(q) == Plus(Unit(p), NONE.(deciding := -1, loading := 1))
    ensures StageOf(q.pc) == StageOf(p.pc) == Waiting
    ensures Unit(p).deciding == 1 && Unit(p).holders == 1 && SameLoops(Unit(p), NONE)
  {
    hide Unit, StageOf, Row, Owed, Plus;
    RowDeciding(p);
    RowLoading(q, b, 0);
    StartLoading(q, b);
    SumsLoading(Unit(p), Unit(q), p.kind == Hacker, p.captain);
  }

  lemma NumbersDeciding(s: State, f: Ferry, t: Tally, s': State, t': Tally, u: Tally)
    requires Numbers(s, f, t) && AtMost(NONE, t) && t.deciding >= 1 && |s'.procs| == |s.procs| && s' == s.(procs := s'.procs)
    requires u == if Group(s.hackers, s.serfs).Some? then NONE.(deciding := -1, loading := 1) else NONE.(deciding := -1, passing := 1)
    requires t' == Plus(t, u)
    ensures match Group(s.hackers, s.serfs)
      case None => f.mode == AtPier
      case Some(boat) => f.mode.Filling? && HackerSeats(boat) == f.mode.hackerSeats
    ensures s'.exclusive + t'.holders == 1 && ModeNumbers(s', f, t') && FinishNumbers(s', t') && Taken(f, t', |s'.procs|)
  {
    TakenSame(f, t, t', |s.procs|);
    hide Taken;
  }

  /** The process that completed a group starts to admit it; any other passes the token on. */
  lemma StepDeciding(s: State, f: Ferry, i: nat)
    requires Inv(s, f) && Enabled(s, i) && s.procs[i].pc.Deciding?
    ensures Inv(Next(s, i), f)
  {
    hide TallyOf, ModeNumbers, FinishNumbers, Taken, NoGroup, Unit, StageOf, HackerSeats, SerfSeats;
    var s' := Next(s, i);
    var b := Group(s.hackers, s.serfs);
    assert s'.procs[i] == s.procs[i].(pc := if b.Some? then Loading(b.value, 0) else Passing);
    hide Group;
    var u := if b.Some? then NONE.(deciding := -1, loading := 1) else NONE.(deciding := -1, passing := 1);
    if b.Some? { UnitsLoading(s.procs[i], s'.procs[i], b.value); } else { UnitsPassing(s.procs[i], s'.procs[i]); }
    NewTally(s, i, s', u);
    Moved(s, i, s');
    var t, t' := TallyOf(s.procs), TallyOf(s'.procs);
    NumbersDeciding(s, f, t, s', t', u);
    SilentInv(s, f, i, s', t, t', u);
  }

  // ----- the captain has admitted everybody -----

  function LastLoad(b: Boat): Tally {
    NONE.(loading := -1, owed := 4,
      postedH := if b == FourHackers then -3 else if b == FourSerfs then 0 else -2,
      postedS := if b == FourHackers then 0 else if b == FourSerfs then -3 else -1)
  }

  lemma SumsLoadLast(a: Tally, b: Tally, h: bool, c: bool, boat: Boat)
    requires a == NONE.(holders := 1, loading := 1,
      postedH := if 3 < HackerSeats(boat) then 3 else HackerSeats(boat),
      postedS := if 3 < HackerSeats(boat) then 0 else 3 - HackerSeats(boat), hackers := Bit(h),
      waitH := Bit(h), waitS := Bit(!h))
    requires b == NONE.(holders := 1, hackers := Bit(h), waitH := Bit(h), waitS := Bit(!h), owed := 4)
    ensures b == Plus(a, LastLoad(boat))
  {}

  lemma UnitsLoadLast(p: Proc, q: Proc, b: Boat)
    requires p.pc == Loading(b, 3) && q == p.(pc := Leaving, captain := true)
    ensures Unit(q) == Plus(Unit(p), LastLoad(b)) && StageOf(q.pc) == StageOf(p.pc) == Waiting
  {
    hide Unit, StageOf, Row, Owed, Plus, SameLoops, LastLoad, HackerSeats;
    RowLoading(p, b, 3);
    RowLeaving(q);
    SumsLoadLast(Unit(p), Unit(q), p.kind == Hacker, p.captain, b);
  }

  lemma LoadLastPlace(p: Proc, b: Boat)
    requires p.pc == Loading(b, 3)
    ensures Unit(p).loading == 1 && Unit(p).holders == 1
    ensures Unit(p).postedH == -LastLoad(b).postedH && Unit(p).postedS == -LastLoad(b).postedS
  {
    hide Unit, StageOf, Row, Owed;
    RowLoading(p, b, 3);
  }

  lemma NumbersLoadLast(s: State, f: Ferry, t: Tally, s': State, t': Tally, b: Boat)
    requires Numbers(s, f, t) && AtMost(NONE, t) && t.loading == 1 && |s'.procs| == |s.procs|
    requires t.postedH == -LastLoad(b).postedH && t.postedS == -LastLoad(b).postedS
    requires f.mode.Filling? && HackerSeats(b) == f.mode.hackerSeats
    requires s' == s.(procs := s'.procs, hackers := s.hackers - HackerSeats(b), serfs := s.serfs - SerfSeats(b),
      hacker := s.hacker + Bit(b == FourHackers), serf := s.serf + Bit(b != FourHackers))
    requires t' == Plus(t, LastLoad(b))
    ensures Loaded(f, t') && !Loaded(f, t) && t'.loading == 0
    ensures s'.exclusive + t'.holders == 1 && ModeNumbers(s', f, t') && FinishNumbers(s', t') && Taken(f, t', |s'.procs|)
  {
    TakenSame(f, t, t', |s.procs|);
    hide Taken;
    assert FillingNumbers(s, f, t, f.mode.hackerSeats, f.mode.serfSeats);
    hide Group, NoGroup;
    match b
    case FourHackers =>
    case FourSerfs =>
    case TwoAndTwo =>
  }

  /** The last post makes the process the captain of the group. */
  lemma StepLoadLast(s: State, f: Ferry, i: nat)
    requires Inv(s, f) && Enabled(s, i) && s.procs[i].pc.Loading? && s.procs[i].pc.posted + 1 >= 4
    ensures Inv(Next(s, i), f)
  {
    hide TallyOf, ModeNumbers, FinishNumbers, Taken, NoGroup, Unit, StageOf, Loaded;
    var s' := Next(s, i);
    var p := s.procs[i];
    var b := p.pc.boat;
    UnitsLoadLast(p, s'.procs[i], b);
    LoadLastPlace(p, b);
    NewTally(s, i, s', LastLoad(b));
    Moved(s, i, s');
    var t, t' := TallyOf(s.procs), TallyOf(s'.procs);
    NumbersLoadLast(s, f, t, s', t', b);
    assert f.stage == f.stage[i := Waiting];
    RecordedInv(s, f, i, s', f, t, t');
  }

  // ----- a passenger boards -----

  function BoardedUnits(h: bool, last: bool): Tally {
    NONE.(boardH := if h then -1 else 0, boardS := if h then 0 else -1, waitH := if h then -1 else 0, waitS := if h then 0 else -1,
      aboard := 1, openB := Bit(last))
  }

  lemma SumsBoarded(a: Tally, b: Tally, h: bool, c: bool)
    requires a == NONE.(holders := 1, boardH := Bit(h), boardS := Bit(!h), hackers := Bit(h), waitH := Bit(h),
      waitS := Bit(!h), owed := 4 * Bit(c))
    requires b == NONE.(holders := 1, hackers := Bit(h), aboard := 1, owed := 4 * Bit(c))
    ensures b == Plus(a, BoardedUnits(h, false))
  {}

  lemma UnitsBoarded(p: Proc, q: Proc)
    requires p.pc == Boarding && q == p.(pc := Boarded)
    ensures Unit(q) == Plus(Unit(p), BoardedUnits(p.kind == Hacker, false)) && StageOf(q.pc) == Aboard
  {
    hide Unit, StageOf, Row, Owed, Plus, SameLoops, BoardedUnits;
    RowBoarding(p);
    RowBoarded(q);
    SumsBoarded(Unit(p), Unit(q), p.kind == Hacker, p.captain);
  }

  lemma SumsBoardedLast(a: Tally, b: Tally, h: bool, c: bool)
    requires a == NONE.(holders := 1, boardH := Bit(h), boardS := Bit(!h), hackers := Bit(h), waitH := Bit(h),
      waitS := Bit(!h), owed := 4 * Bit(c))
    requires b == NONE.(holders := 1, hackers := Bit(h), aboard := 1, openB := 1, admitted := 0, owed := 4 * Bit(c))
    ensures b == Plus(a, BoardedUnits(h, true))
  {}

  lemma UnitsBoardedLast(p: Proc, q: Proc)
    requires p.pc == Boarding && q == p.(pc := OpenBoarding(0))
    ensures Unit(q) == Plus(Unit(p), BoardedUnits(p.kind == Hacker, true)) && StageOf(q.pc) == Aboard
  {
    hide Unit, StageOf, Row, Owed, Plus, SameLoops, BoardedUnits;
    RowBoarding(p);
    RowOpenBoarding(q, 0);
    SumsBoardedLast(Unit(p), Unit(q), p.kind == Hacker, p.captain);
  }

  lemma BoardingPlace(p: Proc)
    requires p.pc == Boarding
    ensures var h := p.kind == Hacker;
      Unit(p).holders == 1 && Unit(p).boardH == Bit(h) && Unit(p).boardS == Bit(!h) && StageOf(p.pc) == Waiting
    ensures SameLoops(Unit(p), NONE)
  {
    hide Unit, StageOf, Row, Owed;
    RowBoarding(p);
  }

  lemma BoardingMode(s: State, f: Ferry, t: Tally, h: bool)
    requires Numbers(s, f, t) && AtMost(NONE, t) && t.loading == t.postedH == t.postedS == 0
    requires t.boardH >= Bit(h) && t.boardS >= Bit(!h)
    ensures f.mode.Filling? && t.deciding == 0 && s.hackers == f.hackers && s.serfs == f.serfs
    ensures f.mode.hackerSeats >= Bit(h) && f.mode.serfSeats >= Bit(!h)
    ensures s.waiting == 4 - f.mode.hackerSeats - f.mode.serfSeats
    ensures f.captain < |f.stage| && f.captain < |f.kinds| && (f.stage[f.captain] == Waiting || f.stage[f.captain] == Aboard)
    ensures if f.kinds[f.captain] == Hacker then f.hackers == 0 else f.serfs == 0
    ensures t.waitH == f.hackers + f.mode.hackerSeats && t.waitS == f.serfs + f.mode.serfSeats
  {}

  lemma NumbersBoarding(s: State, f: Ferry, t: Tally, s': State, f': Ferry, t': Tally, h: bool, e: Event)
    requires Numbers(s, f, t) && AtMost(NONE, t)
    requires t.loading == t.postedH == t.postedS == t.deciding == 0 && |s'.procs| == |s.procs|
    requires f.mode.Filling? && f.mode.hackerSeats >= Bit(h) && f.mode.serfSeats >= Bit(!h) && t.openB == t.admitted == 0
    requires t.boardH >= Bit(h) && t.boardS >= Bit(!h)
    requires s' == s.(procs := s'.procs, waiting := s.waiting + 1, counter := s.counter + 1, log := s.log + [e])
    requires t' == Plus(t, BoardedUnits(h, s'.waiting == 4))
    requires f' == f.(stage := f'.stage, mode := f'.mode) && |f'.stage| == |f.stage| && f.captain < |f.stage|
    requires f'.mode == if s'.waiting == 4 then Calling(0) else Filling(f.mode.hackerSeats - Bit(h), f.mode.serfSeats - Bit(!h))
    requires f'.stage[f.captain] == Aboard || (f'.stage[f.captain] == Waiting && s'.waiting != 4)
    ensures t'.deciding == t'.loading == 0
    ensures s'.exclusive + t'.holders == 1 && ModeNumbers(s', f', t') && FinishNumbers(s', t') && Taken(f', t', |s'.procs|)
  {
    TakenMove(f, t, f', t', |s.procs|);
    hide Taken;
  }

  /** The ferry after the person i of kind h took a seat. */
  function Seated(f: Ferry, i: nat, h: bool): Ferry
    requires i < |f.stage| && f.mode.Filling? && f.mode.hackerSeats >= Bit(h) && f.mode.serfSeats >= Bit(!h)
  {
    var hs: nat, ss: nat := f.mode.hackerSeats - Bit(h), f.mode.serfSeats - Bit(!h);
    Move(f, i, Aboard).(mode := if hs + ss == 0 then Calling(0) else Filling(hs, ss))
  }

  lemma SeatAccepted(f: Ferry, i: nat, h: bool)
    requires i < |f.stage| == |f.kinds| && f.mode.Filling? && f.mode.hackerSeats >= Bit(h) && f.mode.serfSeats >= Bit(!h)
    requires h == (f.kinds[i] == Hacker) && f.stage[i] == Waiting && f.captain < |f.stage|
    requires Seated(f, i, h).mode.Calling? ==> Seated(f, i, h).stage[f.captain] == Aboard
    ensures Accept(f, EBoarding(i, f.hackers, f.serfs)) == Some(Seated(f, i, h))
  {}

  lemma BoardingTally(s: State, f: Ferry, i: nat)
    requires Inv(s, f) && Enabled(s, i) && s.procs[i].pc.Boarding?
    ensures var s', p := Next(s, i), s.procs[i];
      var t, h := TallyOf(s.procs), p.kind == Hacker;
      && TallyOf(s'.procs) == Plus(t, BoardedUnits(h, s'.waiting == 4)) && AtMost(NONE, t)
      && t.loading == t.postedH == t.postedS == t.openB == t.admitted == 0
      && t.boardH >= Bit(h) && t.boardS >= Bit(!h)
      && StageOf(p.pc) == Waiting && StageOf(s'.procs[i].pc) == Aboard
  {
    hide TallyOf, ModeNumbers, FinishNumbers, Taken, NoGroup, Unit, StageOf, Accept, Plus;
    var s' := Next(s, i);
    var p, q := s.procs[i], s'.procs[i];
    BoardingPlace(p);
    if s'.waiting == 4 { UnitsBoardedLast(p, q); } else { UnitsBoarded(p, q); }
    NewTally(s, i, s', BoardedUnits(p.kind == Hacker, s'.waiting == 4));
    Moved(s, i, s');
  }

  lemma StepBoarding(s: State, f: Ferry, i: nat)
    requires Inv(s, f) && Enabled(s, i) && s.procs[i].pc.Boarding?
    ensures var s' := Next(s, i);
      var e := EBoarding(i, s.hackers, s.serfs);
      s'.log == s.log + [e] && Accept(f, e).Some? && Inv(s', Accept(f, e).value)
  {
    hide TallyOf, ModeNumbers, FinishNumbers, Taken, NoGroup, Unit, StageOf, Accept, HoldsExclusive;
    var s' := Next(s, i);
    var e := EBoarding(i, s.hackers, s.serfs);
    var h := s.procs[i].kind == Hacker;
    var t, t' := TallyOf(s.procs), TallyOf(s'.procs);
    BoardingTally(s, f, i);
    BoardingMode(s, f, t, h);
    var f' := Seated(f, i, h);
    Standing(s'.procs, f.captain);
    SeatAccepted(f, i, h);
    NumbersBoarding(s, f, t, s', f', t', h, e);
    RecordedInv(s, f, i, s', f', t, t');
  }

  // ----- a passenger announces itself -----

  function AnnouncedUnits(last: bool): Tally {
    NONE.(aboard := -1, toAnnounce := -1, sailed := 1, openL := Bit(last))
  }

  lemma SumsAnnounced(a: Tally, b: Tally, h: bool, c: bool)
    requires a == NONE.(holders := 1, hackers := Bit(h), aboard := 1, toAnnounce := 1, owed := 4 * Bit(c))
    requires b == NONE.(holders := 1, hackers := Bit(h), sailed := 1, owed := 4 * Bit(c))
    ensures b == Plus(a, AnnouncedUnits(false))
  {}

  lemma SumsAnnouncedLast(a: Tally, b: Tally, h: bool, c: bool)
    requires a == NONE.(holders := 1, hackers := Bit(h), aboard := 1, toAnnounce := 1, owed := 4 * Bit(c))
    requires b == NONE.(holders := 1, hackers := Bit(h), sailed := 1, openL := 1, freed := 0, owed := 4 * Bit(c))
    ensures b == Plus(a, AnnouncedUnits(true))
  {}

  lemma UnitsAnnounced(p: Proc, q: Proc)
    requires p.pc == Announcing && (q == p.(pc := Announced) || q == p.(pc := OpenLanding(0)))
    ensures Unit(q) == Plus(Unit(p), AnnouncedUnits(q.pc == OpenLanding(0))) && StageOf(q.pc) == Sailed
  {
    hide Unit, StageOf, Row, Owed, Plus, SameLoops, AnnouncedUnits;
    RowAnnouncing(p);
    if q.pc == Announced {
      RowAnnounced(q);
      SumsAnnounced(Unit(p), Unit(q), p.kind == Hacker, p.captain);
    } else {
      RowOpenLanding(q, 0);
      SumsAnnouncedLast(Unit(p), Unit(q), p.kind == Hacker, p.captain);
    }
  }

  lemma AnnouncingPlace(p: Proc)
    requires p.pc == Announcing
    ensures Unit(p).holders == 1 && Unit(p).toAnnounce == 1 && StageOf(p.pc) == Aboard
    ensures SameLoops(Unit(p), NONE)
  {
    hide Unit, StageOf, Row, Owed;
    RowAnnouncing(p);
  }

  lemma AnnouncingTally(s: State, f: Ferry, i: nat)
    requires Inv(s, f) && Enabled(s, i) && s.procs[i].pc.Announcing?
    ensures var s', p := Next(s, i), s.procs[i];
      var t := TallyOf(s.procs);
      && TallyOf(s'.procs) == Plus(t, AnnouncedUnits(s'.waiting == 4)) && AtMost(NONE, t) && AtMost(NONE, TallyOf(s'.procs))
      && t.openB == t.admitted == t.openL == t.freed == t.loading == 0 && t.toAnnounce >= 1
      && StageOf(p.pc) == Aboard && StageOf(s'.procs[i].pc) == Sailed
  {
    hide TallyOf, ModeNumbers, FinishNumbers, Taken, NoGroup, Unit, StageOf, Accept, Plus;
    var s' := Next(s, i);
    var p, q := s.procs[i], s'.procs[i];
    AnnouncingPlace(p);
    UnitsAnnounced(p, q);
    NewTally(s, i, s', AnnouncedUnits(s'.waiting == 4));
    Moved(s, i, s');
  }

  lemma AnnouncingMode(s: State, f: Ferry, t: Tally)
    requires Numbers(s, f, t) && AtMost(NONE, t) && t.openB == 0 && t.toAnnounce >= 1
    ensures f.mode.Calling? && Loaded(f, t) && s.waiting == f.mode.called < 4 && f.captain < |f.stage|
    ensures f.stage[f.captain] == Aboard || f.stage[f.captain] == Sailed
  {}

  lemma NumbersAnnouncing(s: State, f: Ferry, t: Tally, s': State, f': Ferry, t': Tally, e: Event)
    requires Numbers(s, f, t) && AtMost(NONE, t) && t.openB == t.admitted == t.openL == t.freed == 0
    requires t.toAnnounce >= 1 && |s'.procs| == |s.procs|
    requires AtMost(NONE, t')
    requires s' == s.(procs := s'.procs, waiting := s.waiting + 1, counter := s.counter + 1, log := s.log + [e])
    requires t' == Plus(t, AnnouncedUnits(s'.waiting == 4))
    requires f' == f.(stage := f'.stage, mode := f'.mode) && |f'.stage| == |f.stage| && f.captain < |f.stage|
    requires f.mode.Calling? && f'.mode == if f.mode.called + 1 < 4 then Calling(f.mode.called + 1) else Unloading(0)
    requires f'.stage[f.captain] == Sailed || (f'.stage[f.captain] == Aboard && t'.aboard > 0)
    ensures Loaded(f', t') && t'.loading == 0
    ensures s'.exclusive + t'.holders == 1 && ModeNumbers(s', f', t') && FinishNumbers(s', t') && Taken(f', t', |s'.procs|)
  {
    TakenMove(f, t, f', t', |s.procs|);
    hide Taken;
  }

  lemma StepAnnouncing(s: State, f: Ferry, i: nat)
    requires Inv(s, f) && Enabled(s, i) && s.procs[i].pc.Announcing?
    ensures var s' := Next(s, i);
      var e := EAnnounced(i, s.procs[i].captain);
      s'.log == s.log + [e] && Accept(f, e).Some? && Inv(s', Accept(f, e).value)
  {
    hide TallyOf, ModeNumbers, FinishNumbers, Taken, NoGroup, Unit, StageOf, HoldsExclusive, Plus, Loaded;
    var s' := Next(s, i);
    var e := EAnnounced(i, s.procs[i].captain);
    var t, t' := TallyOf(s.procs), TallyOf(s'.procs);
    AnnouncingTally(s, f, i);
    AnnouncingMode(s, f, t);
    assert Accept(f, e).Some?;
    var f' := Accept(f, e).value;
    hide Accept;
    Standing(s'.procs, f.captain);
    NumbersAnnouncing(s, f, t, s', f', t', e);
    RecordedInv(s, f, i, s', f', t, t');
  }

  // ----- a passenger lands -----

  function LandedUnits(last: bool): Tally {
    NONE.(sailed := -1, passed := -1, toLand := -1, freeing := Bit(last))
  }

  lemma SumsLanded(a: Tally, b: Tally, h: bool, c: bool)
    requires a == NONE.(holders := 1, hackers := Bit(h), sailed := 1, passed := 1, toLand := 1)
    requires b == NONE.(holders := 1, hackers := Bit(h))
    ensures b == Plus(a, LandedUnits(false))
  {}

  lemma SumsLandedLast(a: Tally, b: Tally, h: bool, c: bool)
    requires a == NONE.(holders := 1, hackers := Bit(h), sailed := 1, passed := 1, toLand := 1)
    requires b == NONE.(holders := 1, freeing := 1, hackers := Bit(h))
    ensures b == Plus(a, LandedUnits(true))
  {}

  lemma UnitsLanded(p: Proc, q: Proc)
    requires p.pc == Landing && (q == p.(pc := Landed) || q == p.(pc := Freeing))
    ensures Unit(q) == Plus(Unit(p), LandedUnits(q.pc == Freeing)) && StageOf(q.pc) == Ashore
  {
    hide Unit, StageOf, Row, Owed, Plus, SameLoops, LandedUnits;
    RowLanding(p);
    if q.pc == Landed {
      RowLanded(q);
      SumsLanded(Unit(p), Unit(q), p.kind == Hacker, p.captain);
    } else {
      RowFreeing(q);
      SumsLandedLast(Unit(p), Unit(q), p.kind == Hacker, p.captain);
    }
  }

  lemma LandingPlace(p: Proc)
    requires p.pc == Landing
    ensures Unit(p).holders == 1 && Unit(p).toLand == 1 && Unit(p).passed == 1 && StageOf(p.pc) == Sailed
    ensures SameLoops(Unit(p), NONE)
  {
    hide Unit, StageOf, Row, Owed;
    RowLanding(p);
  }

  lemma LandingTally(s: State, f: Ferry, i: nat)
    requires Inv(s, f) && Enabled(s, i) && s.procs[i].pc.Landing?
    ensures var s', p := Next(s, i), s.procs[i];
      var t := TallyOf(s.procs);
      && TallyOf(s'.procs) == Plus(t, LandedUnits(s'.waiting == 4)) && AtMost(NONE, t) && AtMost(NONE, TallyOf(s'.procs))
      && t.openL == t.freed == t.loading == 0 && t.toLand >= 1 && t.passed >= 1
      && StageOf(p.pc) == Sailed && StageOf(s'.procs[i].pc) == Ashore
  {
    hide TallyOf, ModeNumbers, FinishNumbers, Taken, NoGroup, Unit, StageOf, Accept, Plus;
    var s' := Next(s, i);
    var p, q := s.procs[i], s'.procs[i];
    LandingPlace(p);
    UnitsLanded(p, q);
    NewTally(s, i, s', LandedUnits(s'.waiting == 4));
    Moved(s, i, s');
  }

  lemma LandingMode(s: State, f: Ferry, t: Tally)
    requires Numbers(s, f, t) && AtMost(NONE, t) && t.openL == 0 && t.toLand >= 1
    ensures f.mode.Unloading? && Loaded(f, t) && s.waiting == f.mode.landed < 4 && f.captain < |f.stage|
    ensures f.stage[f.captain] == Sailed || f.stage[f.captain] == Ashore
    ensures s.hackers == f.hackers && s.serfs == f.serfs && t.deciding == 0
  {}

  lemma NumbersLanding(s: State, f: Ferry, t: Tally, s': State, f': Ferry, t': Tally, e: Event)
    requires Numbers(s, f, t) && AtMost(NONE, t) && t.openL == t.freed == 0 && t.toLand >= 1 && |s'.procs| == |s.procs|
    requires AtMost(NONE, t')
    requires s' == s.(procs := s'.procs, waiting := s.waiting + 1, counter := s.counter + 1, log := s.log + [e])
    requires t' == Plus(t, LandedUnits(s'.waiting == 4))
    requires f' == f.(stage := f'.stage, mode := f'.mode, voyages := f'.voyages)
    requires |f'.stage| == |f.stage| && f.captain < |f.stage|
    requires f.mode.Unloading? && if f.mode.landed + 1 < 4 then f'.mode == Unloading(f.mode.landed + 1) && f'.voyages == f.voyages
      else f'.mode == AtPier && f'.voyages == f.voyages + 1
    requires f'.stage[f.captain] == Sailed || f'.stage[f.captain] == Ashore
    ensures Loaded(f', t') == (f'.mode != AtPier) && t'.loading == 0
    ensures s'.exclusive + t'.holders == 1 && ModeNumbers(s', f', t') && FinishNumbers(s', t') && Taken(f', t', |s'.procs|)
  {
    TakenMove(f, t, f', t', |s.procs|);
    hide Taken;
  }

  lemma StepLanding(s: State, f: Ferry, i: nat)
    requires Inv(s, f) && Enabled(s, i) && s.procs[i].pc.Landing?
    ensures var s' := Next(s, i);
      var e := ELanding(i, s.hackers, s.serfs);
      s'.log == s.log + [e] && Accept(f, e).Some? && Inv(s', Accept(f, e).value)
  {
    hide TallyOf, ModeNumbers, FinishNumbers, Taken, NoGroup, Unit, StageOf, HoldsExclusive, Plus, Loaded;
    var s' := Next(s, i);
    var e := ELanding(i, s.hackers, s.serfs);
    var t, t' := TallyOf(s.procs), TallyOf(s'.procs);
    LandingTally(s, f, i);
    LandingMode(s, f, t);
    assert Accept(f, e).Some?;
    var f' := Accept(f, e).value;
    hide Accept;
    NumbersLanding(s, f, t, s', f', t', e);
    RecordedInv(s, f, i, s', f', t, t');
  }

  // ----- a process reports that it finished -----

  lemma SumsPrinting(a: Tally, b: Tally, h: bool, c: bool)
    requires a == NONE.(holders := 1, hackers := Bit(h), past := 1, out := 1)
    requires b == NONE.(hackers := Bit(h), past := 1, out := 1)
    ensures b == Plus(a, NONE.(holders := -1))
  {}

  lemma UnitsPrinting(p: Proc, q: Proc)
    requires p.pc == Printing && q == p.(pc := Done)
    ensures Unit(q) == Plus(Unit(p), NONE.(holders := -1)) && StageOf(p.pc) == Ashore && StageOf(q.pc) == Finished
  {
    hide Unit, StageOf, Row, Owed, Plus, SameLoops;
    RowPrinting(p);
    RowDone(q);
    SumsPrinting(Unit(p), Unit(q), p.kind == Hacker, p.captain);
  }

  lemma PrintingPlace(p: Proc)
    requires p.pc == Printing
    ensures Unit(p).holders == 1 && Unit(p).out == 1 && SameLoops(Unit(p), NONE)
  {
    hide Unit, StageOf, Row, Owed;
    RowPrinting(p);
  }

  lemma NumbersPrinting(s: State, f: Ferry, t: Tally, s': State, f': Ferry, t': Tally, e: Event)
    requires Numbers(s, f, t) && AtMost(NONE, t) && t.out >= 1 && t.loading == 0
    requires |s'.procs| == |s.procs| && Consistent(t, |s.procs|)
    requires s' == s.(procs := s'.procs, exclusive := s.exclusive + 1, counter := s.counter + 1, log := s.log + [e])
    requires t' == Plus(t, NONE.(holders := -1))
    requires |f'.stage| == |f.stage| && f' == f.(stage := f'.stage)
    ensures f.mode == AtPier && t.awayH == t.awayS == t.waitH == t.waitS == t.aboard == t.sailed == 0 && t'.loading == 0
    ensures s'.exclusive + t'.holders == 1 && ModeNumbers(s', f', t') && FinishNumbers(s', t') && Taken(f', t', |s'.procs|)
  {
    TakenMove(f, t, f', t', |s.procs|);
    hide Taken;
  }

  /** When one process has passed the final barrier, everybody is ashore. */
  lemma EverybodyAshore(s: State, f: Ferry, t: Tally)
    requires Inv(s, f) && t == TallyOf(s.procs) && t.awayH == t.awayS == t.waitH == t.waitS == t.aboard == t.sailed == 0
    ensures forall k :: 0 <= k < |f.stage| ==> f.stage[k] == Ashore || f.stage[k] == Finished
  {
    hide TallyOf, StageOf, Numbers;
    forall k | 0 <= k < |f.stage|
      ensures f.stage[k] == Ashore || f.stage[k] == Finished
    {
      Standing(s.procs, k);
    }
  }

  lemma StepPrinting(s: State, f: Ferry, i: nat)
    requires Inv(s, f) && Enabled(s, i) && s.procs[i].pc.Printing?
    ensures var s' := Next(s, i);
      s'.log == s.log + [EFinished(i)] && Accept(f, EFinished(i)).Some? && Inv(s', Accept(f, EFinished(i)).value)
  {
    hide TallyOf, ModeNumbers, FinishNumbers, Taken, NoGroup, Unit, StageOf, Plus;
    var s' := Next(s, i);
    UnitsPrinting(s.procs[i], s'.procs[i]);
    PrintingPlace(s.procs[i]);
    NewTally(s, i, s', NONE.(holders := -1));
    Moved(s, i, s');
    var t, t' := TallyOf(s.procs), TallyOf(s'.procs);
    var f' := Move(f, i, Finished);
    NumbersPrinting(s, f, t, s', f', t', EFinished(i));
    EverybodyAshore(s, f, t);
    assert Accept(f, EFinished(i)) == Some(f');
    RecordedInv(s, f, i, s', f', t, t');
  }

  // ----- all steps together -----

  /** The ferry after a step: it reads the line that the step printed, if any. */
  function Follow(f: Ferry, before: State, after: State): Option<Ferry> {
    if after.log == before.log || after.log == [] then Some(f) else Accept(f, after.log[|after.log| - 1])
  }

  ghost predicate Matched(s: State, f: Ferry, s': State) {
    && (s'.log == s.log || (s'.log != [] && s'.log[..|s'.log| - 1] == s.log))
    && var f' := Follow(f, s, s');
       f'.Some? && Inv(s', f'.value)
  }

  lemma LongerLog(s: State, f: Ferry, s': State, e: Event)
    requires s'.log == s.log + [e] && Accept(f, e).Some? && Inv(s', Accept(f, e).value)
    ensures Matched(s, f, s')
  {
    hide Accept, Inv;
    assert |s'.log| == |s.log| + 1;
  }

  lemma SameLog(s: State, f: Ferry, s': State)
    requires s'.log == s.log && Inv(s', f)
    ensures Matched(s, f, s')
  {
    hide Accept, Inv;
  }

  predicate Prints(pc: Pc) {
    pc.Starting? || pc.Counting? || pc.Boarding? || pc.Announcing? || pc.Landing? || pc.Printing?
  }

  lemma SilentLog(s: State, i: nat)
    requires Enabled(s, i) && !Prints(s.procs[i].pc)
    ensures Next(s, i).log == s.log
  {}

  lemma StepPrints(s: State, f: Ferry, i: nat)
    requires Inv(s, f) && Enabled(s, i) && Prints(s.procs[i].pc)
    ensures Matched(s, f, Next(s, i))
  {
    hide Inv, Next, Accept, Matched, Enabled;
    EnabledIndex(s, i);
    var s' := Next(s, i);
    match s.procs[i].pc
    case Starting =>
      StepStarting(s, f, i);
      StartedLog(s, i);
      LongerLog(s, f, s', EStarted(i));
    case Counting =>
      StepCounting(s, f, i);
      LongerLog(s, f, s', EWaiting(i, s'.hackers, s'.serfs));
    case Boarding =>
      StepBoarding(s, f, i);
      LongerLog(s, f, s', EBoarding(i, s.hackers, s.serfs));
    case Announcing =>
      StepAnnouncing(s, f, i);
      LongerLog(s, f, s', EAnnounced(i, s.procs[i].captain));
    case Landing =>
      StepLanding(s, f, i);
      LongerLog(s, f, s', ELanding(i, s.hackers, s.serfs));
    case Printing =>
      StepPrinting(s, f, i);
      LongerLog(s, f, s', EFinished(i));
  }

  lemma StartedLog(s: State, i: nat)
    requires Enabled(s, i) && s.procs[i].pc.Starting?
    ensures Next(s, i).log == s.log + [EStarted(i)]
  {}

  lemma StepSilent(s: State, f: Ferry, i: nat)
    requires Inv(s, f) && Enabled(s, i) && !Prints(s.procs[i].pc)
    ensures Inv(Next(s, i), f)
  {
    hide Inv, Next, Enabled, Prints;
    EnabledIndex(s, i);
    SilentKinds(s, i);
    match s.procs[i].pc
    case Arriving => StepLock(s, f, i, Starting, 1);
    case AtMolo => StepAtMolo(s, f, i);
    case AwaitCount => StepLock(s, f, i, Counting, 1);
    case Reenter => StepLock(s, f, i, Deciding, 1);
    case Deciding => StepDeciding(s, f, i);
    case Loading(b, k) =>
      if k + 1 >= 4 { StepLoadLast(s, f, i); }
      else if k < HackerSeats(b) { StepLoadHacker(s, f, i); }
      else { StepLoadSerf(s, f, i); }
    case Passing => StepPassing(s, f, i);
    case Leaving => StepLock(s, f, i, OnPier, -1);
    case OnPier => StepAdmitted(s, f, i);
    case AwaitBoarding => StepLock(s, f, i, Boarding, 1);
    case OpenBoarding(k) => if k + 1 < 4 { StepOpenBoarding(s, f, i); } else { StepOpenBoardingLast(s, f, i); }
    case Boarded => StepLock(s, f, i, AtBoarding, -1);
    case AtBoarding => StepAtBoarding(s, f, i);
    case AwaitAnnounce => StepLock(s, f, i, Announcing, 1);
    case OpenLanding(k) => if k + 1 < 4 { StepOpenLanding(s, f, i); } else { StepOpenLandingLast(s, f, i); }
    case Announced => StepLock(s, f, i, AtLanding, -1);
    case AtLanding => StepAtLanding(s, f, i);
    case Sailing(_) => StepSailing(s, f, i);
    case AtCaptain => StepAtCaptain(s, f, i);
    case AwaitLanding => StepLock(s, f, i, Landing, 1);
    case Freeing => StepFreeing(s, f, i);
    case Landed => StepLock(s, f, i, AwaitFinish, -1);
    case AwaitFinish => StepLock(s, f, i, Finishing, 1);
    case Finishing =>
      if s.toFinish + 1 == |s.procs| { StepFinishingLast(s, f, i); } else { StepFinishing(s, f, i); }
    case OpenFinish(k) => if k + 1 < |s.procs| { StepOpenFinish(s, f, i); } else { StepOpenFinishLast(s, f, i); }
    case FinishDone => StepLock(s, f, i, AtFinish, -1);
    case AtFinish => StepAtFinish(s, f, i);
    case AwaitPrint => StepLock(s, f, i, Printing, 1);
    case _ => assert false;
  }

  lemma EnabledIndex(s: State, i: nat)
    requires Enabled(s, i)
    ensures i < |s.procs|
  {}

  lemma SilentKinds(s: State, i: nat)
    requires Enabled(s, i) && !Prints(s.procs[i].pc)
    ensures var pc := s.procs[i].pc;
      !pc.Done? && !pc.Starting? && !pc.Counting? && !pc.Boarding? && !pc.Announcing? && !pc.Landing? && !pc.Printing?
  {}

  /** Every step keeps the invariant, and the ferry accepts what it prints. */
  lemma Step(s: State, f: Ferry, i: nat)
    requires Inv(s, f) && Enabled(s, i)
    ensures Matched(s, f, Next(s, i))
  {
    hide Inv, Next, Enabled, Prints;
    EnabledIndex(s, i);
    if Prints(s.procs[i].pc) {
      StepPrints(s, f, i);
    } else {
      StepSilent(s, f, i);
      SilentLog(s, i);
      SameLog(s, f, Next(s, i));
    }
  }

  lemma ArrivingUnit(kind: Kind)
    ensures var h := kind == Hacker;
      Unit(Proc(kind, Arriving, false)) == NONE.(hackers := Bit(h), awayH := Bit(h), awayS := Bit(!h))
  {
    hide Unit, StageOf, Row, Owed;
    RowArriving(Proc(kind, Arriving, false));
  }

  lemma {:induction false} ArrivingTally(ps: seq<Proc>)
    requires forall j :: 0 <= j < |ps| ==> ps[j] == Proc(ps[j].kind, Arriving, false)
    ensures var t := TallyOf(ps);
      t == NONE.(hackers := t.hackers, awayH := t.hackers, awayS := |ps| - t.hackers)
  {
    hide Unit;
    if ps != [] {
      ArrivingTally(ps[1..]);
      ArrivingUnit(ps[0].kind);
    }
  }

  lemma NumbersInit(s: State, f: Ferry, t: Tally, kinds: seq<Kind>)
    requires s == Init(kinds) && f == Start(kinds)
    requires t == NONE.(hackers := t.hackers, awayH := t.hackers, awayS := |kinds| - t.hackers)
    requires 0 <= t.hackers <= |kinds|
    ensures ModeNumbers(s, f, t) && Taken(f, t, |s.procs|) && (|kinds| > 0 ==> FinishNumbers(s, t))
  {}

  lemma InitInv(kinds: seq<Kind>)
    ensures Inv(Init(kinds), Start(kinds))
  {
    hide TallyOf, ModeNumbers, Taken;
    var s := Init(kinds);
    var t := TallyOf(s.procs);
    ArrivingTally(s.procs);
    TallyConsistent(s.procs);
    TallyNonnegative(s.procs);
    NumbersInit(s, Start(kinds), t, kinds);
  }

  /** Refinement: whatever the schedule, the ferry accepts the lines printed so far, and the shared
      state is what the ferry's invariant says. */
  lemma {:induction false} Refines(kinds: seq<Kind>, schedule: seq<nat>)
    requires Run(kinds, schedule).Some?
    ensures var s := Run(kinds, schedule).value;
      Watch(kinds, s.log).Some? && Inv(s, Watch(kinds, s.log).value)
  {
    hide Inv, Next, Enabled, Accept;
    if schedule == [] {
      InitInv(kinds);
    } else {
      var before := schedule[..|schedule| - 1];
      var r := Run(kinds, before).value;
      var i := schedule[|schedule| - 1];
      var s := Next(r, i);
      Refines(kinds, before);
      Step(r, Watch(kinds, r.log).value, i);
    }
  }
}
