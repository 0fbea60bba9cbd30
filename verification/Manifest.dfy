/** What the output file of the river-crossing program looks like, in terms of its lines alone. */
module Manifest {
  import opened Wrappers
  import opened River
  import opened Ferry
  import opened Tally
  import opened Crossing
  import opened Voyage
  import opened Outcome

  /** How many lines of each kind; waitedH and waitedS count the waiting lines of hackers and serfs, hackers
      the boarding lines of hackers, captains the announcements that say captain; last is who waited last. */
  datatype Lines = Lines(
    waitedH: nat, waitedS: nat, last: nat, boardings: nat, hackers: nat, announcements: nat, captains: nat, landings: nat)

  function AddLine(kinds: seq<Kind>, l: Lines, e: Event): Lines {
    match e
    case EWaiting(i, _, _) =>
      l.(waitedH := l.waitedH + Bit(i < |kinds| && kinds[i] == Hacker),
         waitedS := l.waitedS + Bit(i < |kinds| && kinds[i] == Serf), last := i)
    case EBoarding(i, _, _) =>
      l.(boardings := l.boardings + 1, hackers := l.hackers + Bit(i < |kinds| && kinds[i] == Hacker))
    case EAnnounced(_, captain) => l.(announcements := l.announcements + 1, captains := l.captains + Bit(captain))
    case ELanding(_, _, _) => l.(landings := l.landings + 1)
    case _ => l
  }

  function LinesOf(kinds: seq<Kind>, log: seq<Event>): Lines {
    if log == [] then Lines(0, 0, 0, 0, 0, 0, 0, 0)
    else AddLine(kinds, LinesOf(kinds, log[..|log| - 1]), log[|log| - 1])
  }

  /** Voyages do not overlap, neither do the phases of one voyage; every completed boat carries an even
      number of hackers, and every completed round of announcements has one captain. */
  predicate Orderly(l: Lines) {
    var v := l.landings / 4;
    && (if l.landings % 4 > 0 then l.boardings == l.announcements == 4 * v + 4
        else 4 * v <= l.announcements <= l.boardings <= 4 * v + 4)
    && (4 * v < l.announcements ==> l.boardings == 4 * v + 4)
    && (l.boardings % 4 == 0 ==> l.hackers % 2 == 0)
    && l.announcements / 4 <= l.captains <= (l.announcements + 3) / 4
  }

  /** Hackers who came to the pier and have not boarded; the same for serfs. */
  function HackersLeft(l: Lines): int { l.waitedH - l.hackers }

  function SerfsLeft(l: Lines): int { l.waitedS - (l.boardings - l.hackers) }

  /** When a line may follow: nobody joins the pier or boards before everybody aboard has landed, announces
      before four have boarded, lands before four have announced, or finishes before all have landed. And what
      numbers it shows: who waits shows how many hackers and serfs have come and not boarded, itself among them;
      who boards shows those whom the boat leaves behind; who lands shows those on the pier. The captain is whose
      coming completed the group. */
  predicate MayFollow(kinds: seq<Kind>, l: Lines, e: Event) {
    match e
    case EStarted(_) => true
    case EWaiting(i, h, s) =>
      && l.boardings == l.announcements == l.landings && l.landings % 4 == 0 && i < |kinds|
      && h == HackersLeft(l) + Bit(kinds[i] == Hacker) && s == SerfsLeft(l) + Bit(kinds[i] == Serf)
    case EBoarding(_, h, s) =>
      && l.announcements == l.landings && l.landings % 4 == 0 && l.boardings < l.landings + 4
      && h + s == HackersLeft(l) + SerfsLeft(l) - (l.landings + 4 - l.boardings)
      && 0 <= h <= HackersLeft(l) && 0 <= s <= SerfsLeft(l) && (l.waitedH - h) % 2 == 0
    case EAnnounced(i, captain) => l.landings % 4 == 0 && l.boardings == l.landings + 4 && captain == (i == l.last)
    case ELanding(_, h, s) =>
      && l.announcements == l.boardings && l.boardings % 4 == 0 && l.landings < l.boardings
      && h == HackersLeft(l) && s == SerfsLeft(l)
    case EFinished(_) => l.landings == |kinds|
  }

  // ----- the lines and the ferry -----

  /** How many hackers and serfs of the current boat have not boarded. */
  function SeatsLeft(f: Ferry): (int, int) {
    if f.mode.Filling? then (f.mode.hackerSeats, f.mode.serfSeats) else (0, 0)
  }

  predicate OnPierTie(f: Ferry, l: Lines) {
    f.hackers == HackersLeft(l) - SeatsLeft(f).0 && f.serfs == SerfsLeft(l) - SeatsLeft(f).1
  }

  predicate Tie(f: Ferry, l: Lines) {
    OnPierTie(f, l) && ModeTie(f, l) && (f.mode.AtPier? || f.captain == l.last)
  }

  predicate ModeTie(f: Ferry, l: Lines) {
    var v := f.voyages;
    match f.mode
    case AtPier => l.boardings == l.announcements == l.landings == 4 * v && l.hackers % 2 == 0 && l.captains == v
    case Filling(hs, ss) =>
      && 1 <= hs + ss <= 4 && l.boardings == 4 * v + 4 - hs - ss && l.announcements == l.landings == 4 * v
      && (l.hackers + hs) % 2 == 0 && (hs + ss == 4 ==> hs % 2 == 0) && l.captains == v
    case Calling(c) =>
      && c < 4 && l.boardings == 4 * v + 4 && l.announcements == 4 * v + c && l.landings == 4 * v && l.hackers % 2 == 0
      && f.captain < |f.stage| && l.captains == v + Bit(f.stage[f.captain] == Sailed)
      && (c == 0 ==> f.stage[f.captain] == Aboard)
    case Unloading(d) =>
      && d < 4 && l.boardings == l.announcements == 4 * v + 4 && l.landings == 4 * v + d && l.hackers % 2 == 0
      && l.captains == v + 1
  }

  lemma TieOrderly(f: Ferry, l: Lines)
    requires Tie(f, l)
    ensures Orderly(l)
  {
    assert l.landings / 4 == f.voyages;
    match f.mode
    case AtPier =>
    case Filling(_, _) =>
    case Calling(_) =>
    case Unloading(_) =>
  }

  /** Where the captain of a loaded boat can be. */
  predicate CaptainPlaced(f: Ferry) {
    && (f.mode.Calling? ==> f.captain < |f.stage| && (f.stage[f.captain] == Aboard || f.stage[f.captain] == Sailed))
    && (f.mode.Unloading? ==> f.captain < |f.stage| && (f.stage[f.captain] == Sailed || f.stage[f.captain] == Ashore))
  }

  lemma InvPlaced(s: State, f: Ferry)
    requires Inv(s, f)
    ensures CaptainPlaced(f)
  {
    hide TallyOf;
  }

  /** Whoever joins the pier is counted there or on the boat, which then has all its seats. */
  lemma JoinSeats(f: Ferry, i: nat, h: nat, s: nat)
    requires i < |f.stage| && f.mode == AtPier
    ensures var g := Join(f, i, h, s);
      && g.voyages == f.voyages && g.hackers == h - SeatsLeft(g).0 && g.serfs == s - SeatsLeft(g).1
      && (g.mode == AtPier || (g.mode.Filling? && g.captain == i && SeatsLeft(g).0 + SeatsLeft(g).1 == 4 && SeatsLeft(g).0 % 2 == 0))
  {}

  lemma WaitingJoins(f: Ferry, e: Event)
    requires Accept(f, e).Some? && e.EWaiting?
    ensures e.who < |f.kinds| && e.who < |f.stage| && f.mode == AtPier
    ensures e.hackers == f.hackers + Bit(f.kinds[e.who] == Hacker) && e.serfs == f.serfs + Bit(f.kinds[e.who] == Serf)
    ensures Accept(f, e).value == Join(f, e.who, e.hackers, e.serfs)
  {}

  lemma TieWaiting(f: Ferry, l: Lines, e: Event)
    requires Tie(f, l) && Accept(f, e).Some? && e.EWaiting?
    ensures Tie(Accept(f, e).value, AddLine(f.kinds, l, e)) && MayFollow(f.kinds, l, e)
  {
    WaitingJoins(f, e);
    JoinSeats(f, e.who, e.hackers, e.serfs);
    hide Accept, Join;
  }

  /** Whoever boards takes a seat of his kind. */
  lemma BoardingSeats(f: Ferry, e: Event)
    requires Accept(f, e).Some? && e.EBoarding?
    ensures var g := Accept(f, e).value;
      && e.who < |f.kinds| && f.mode.Filling? && g.captain == f.captain && e.hackers == f.hackers == g.hackers && e.serfs == f.serfs == g.serfs
      && SeatsLeft(g).0 == SeatsLeft(f).0 - Bit(f.kinds[e.who] == Hacker) >= 0
      && SeatsLeft(g).1 == SeatsLeft(f).1 - Bit(f.kinds[e.who] == Serf) >= 0
  {}

  lemma BoardingMode(f: Ferry, l: Lines, e: Event)
    requires ModeTie(f, l) && Accept(f, e).Some? && e.EBoarding?
    ensures ModeTie(Accept(f, e).value, AddLine(f.kinds, l, e))
  {}

  lemma TieBoarding(f: Ferry, l: Lines, e: Event)
    requires Tie(f, l) && Accept(f, e).Some? && e.EBoarding?
    ensures Tie(Accept(f, e).value, AddLine(f.kinds, l, e)) && MayFollow(f.kinds, l, e)
  {
    BoardingSeats(f, e);
    BoardingMode(f, l, e);
    hide Accept;
  }

  lemma TieAnnounced(f: Ferry, l: Lines, e: Event)
    requires Tie(f, l) && Accept(f, e).Some? && e.EAnnounced? && CaptainPlaced(f) && CaptainPlaced(Accept(f, e).value)
    ensures Tie(Accept(f, e).value, AddLine(f.kinds, l, e)) && MayFollow(f.kinds, l, e)
  {}

  lemma TieLanding(f: Ferry, l: Lines, e: Event)
    requires Tie(f, l) && Accept(f, e).Some? && e.ELanding?
    ensures Tie(Accept(f, e).value, AddLine(f.kinds, l, e)) && MayFollow(f.kinds, l, e)
  {}

  /** A finishing process finds the pier empty and everybody landed. */
  lemma FinishedLate(s: State, f: Ferry, i: nat)
    requires Inv(s, f) && i < |s.procs| && s.procs[i].pc.Printing?
    ensures f.mode == AtPier && 4 * f.voyages == |s.procs|
  {
    hide TallyOf, Unit;
    PrintingPlace(s.procs[i]);
    UnitAtMost(s.procs, i);
    TallyConsistent(s.procs);
    TallyNonnegative(s.procs);
  }

  lemma TieStep(s: State, f: Ferry, l: Lines, i: nat)
    requires Inv(s, f) && Enabled(s, i) && Tie(f, l)
    requires Matched(s, f, Next(s, i)) && Next(s, i).log != s.log
    ensures var s' := Next(s, i);
      var e := s'.log[|s'.log| - 1];
      Tie(Accept(f, e).value, AddLine(f.kinds, l, e)) && MayFollow(f.kinds, l, e)
  {
    var s' := Next(s, i);
    var e := s'.log[|s'.log| - 1];
    EnabledIndex(s, i);
    LogEvent(s, i);
    hide Next, Accept, Inv, Tie;
    InvPlaced(s, f);
    InvPlaced(s', Accept(f, e).value);
    match e
    case EStarted(_) => TieStays(f, l, e);
    case EWaiting(_, _, _) => TieWaiting(f, l, e);
    case EBoarding(_, _, _) => TieBoarding(f, l, e);
    case EAnnounced(_, _) => TieAnnounced(f, l, e);
    case ELanding(_, _, _) => TieLanding(f, l, e);
    case EFinished(_) =>
      FinishedLate(s, f, i);
      TieStays(f, l, e);
      TiePier(f, l);
  }

  lemma LogEvent(s: State, i: nat)
    requires Enabled(s, i) && Next(s, i).log != s.log
    ensures var s' := Next(s, i);
      s'.log == s.log + [s'.log[|s'.log| - 1]] && (s'.log[|s'.log| - 1].EFinished? ==> s.procs[i].pc.Printing?)
  {}

  lemma TieStays(f: Ferry, l: Lines, e: Event)
    requires Tie(f, l) && Accept(f, e).Some? && (e.EStarted? || (e.EFinished? && f.mode == AtPier))
    ensures Tie(Accept(f, e).value, AddLine(f.kinds, l, e)) && (e.EStarted? ==> MayFollow(f.kinds, l, e))
  {}

  lemma TiePier(f: Ferry, l: Lines)
    requires Tie(f, l) && f.mode == AtPier
    ensures l.landings == 4 * f.voyages
  {}

  // ----- the whole output -----

  ghost predicate AllFollow(kinds: seq<Kind>, log: seq<Event>) {
    forall k :: 0 <= k < |log| ==> Orderly(LinesOf(kinds, log[..k])) && MayFollow(kinds, LinesOf(kinds, log[..k]), log[k])
  }

  lemma FollowMore(kinds: seq<Kind>, log: seq<Event>, e: Event)
    requires AllFollow(kinds, log) && Orderly(LinesOf(kinds, log)) && MayFollow(kinds, LinesOf(kinds, log), e)
    ensures AllFollow(kinds, log + [e])
    ensures LinesOf(kinds, log + [e]) == AddLine(kinds, LinesOf(kinds, log), e)
  {
    hide Orderly, MayFollow, AddLine;
    var longer := log + [e];
    assert longer[..|log|] == log;
    forall k | 0 <= k < |longer|
      ensures Orderly(LinesOf(kinds, longer[..k])) && MayFollow(kinds, LinesOf(kinds, longer[..k]), longer[k])
    {
      if k < |log| { assert longer[..k] == log[..k]; }
    }
  }

  lemma AcceptKinds(f: Ferry, e: Event)
    requires Accept(f, e).Some?
    ensures Accept(f, e).value.kinds == f.kinds
  {}

  lemma {:induction false} TieRun(kinds: seq<Kind>, schedule: seq<nat>)
    requires Run(kinds, schedule).Some?
    ensures var s := Run(kinds, schedule).value;
      && |s.procs| == |kinds| && s.counter == |s.log|
      && Watch(kinds, s.log).Some? && Watch(kinds, s.log).value.kinds == kinds
      && Tie(Watch(kinds, s.log).value, LinesOf(kinds, s.log))
      && AllFollow(kinds, s.log)
  {
    hide Inv, Next, Enabled, Accept, Orderly, MayFollow, AddLine;
    hide Tie;
    if schedule == [] {
      TieStart(kinds);
    } else {
      hide AllFollow, LinesOf;
      var before := schedule[..|schedule| - 1];
      var r := Run(kinds, before).value;
      var i := schedule[|schedule| - 1];
      var s := Next(r, i);
      TieRun(kinds, before);
      Refines(kinds, before);
      Refines(kinds, schedule);
      var f := Watch(kinds, r.log).value;
      Step(r, f, i);
      RunCounter(s, Watch(kinds, s.log).value, r, i, kinds);
      if s.log != r.log {
        LogEvent(r, i);
        TieStep(r, f, LinesOf(kinds, r.log), i);
        TieOrderly(f, LinesOf(kinds, r.log));
        FollowMore(kinds, r.log, s.log[|s.log| - 1]);
        AcceptKinds(f, s.log[|s.log| - 1]);
      }
    }
  }

  lemma TieStart(kinds: seq<Kind>)
    ensures Tie(Start(kinds), LinesOf(kinds, []))
  {}

  lemma RunCounter(s: State, f: Ferry, r: State, i: nat, kinds: seq<Kind>)
    requires Inv(s, f) && Enabled(r, i) && s == Next(r, i) && |r.procs| == |kinds|
    ensures s.counter == |s.log| && |s.procs| == |kinds| && |f.kinds| == |kinds|
  {
    NextFrame(r, i);
    hide Next, Enabled, TallyOf;
  }

  /** Barrier phases, on the output alone: in every run every line comes when it may, the counts are
      orderly after each line, and the running number is the number of lines. */
  lemma OutputOrderly(kinds: seq<Kind>, schedule: seq<nat>, k: nat)
    requires Run(kinds, schedule).Some? && k <= |Run(kinds, schedule).value.log|
    ensures var s := Run(kinds, schedule).value;
      && s.counter == |s.log|
      && Orderly(LinesOf(kinds, s.log[..k]))
      && (k < |s.log| ==> MayFollow(kinds, LinesOf(kinds, s.log[..k]), s.log[k]))
  {
    hide Orderly, MayFollow, Tie, Run, Watch, LinesOf;
    TieRun(kinds, schedule);
    var s := Run(kinds, schedule).value;
    if k == |s.log| {
      assert s.log[..k] == s.log;
      TieOrderly(Watch(kinds, s.log).value, LinesOf(kinds, s.log));
    }
  }
}
