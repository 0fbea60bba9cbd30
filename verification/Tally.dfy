/** Counting the processes of the river-crossing program by where they stand. */
module Tally {
  import opened Wrappers
  import opened River
  import opened Ferry

  function StageOf(pc: Pc): Stage {
    match pc
    case Arriving | Starting | AtMolo | AwaitCount | Counting => Away
    case Reenter | Deciding | Loading(_, _) | Passing | Leaving | OnPier | AwaitBoarding | Boarding => Waiting
    case OpenBoarding(_) | Boarded | AtBoarding | AwaitAnnounce | Announcing => Aboard
    case OpenLanding(_) | Announced | AtLanding | Sailing(_) | AtCaptain | AwaitLanding | Landing => Sailed
    case Done => Finished
    case _ => Ashore
  }

  predicate HoldsExclusive(pc: Pc) {
    match pc
    case Starting | Counting | Deciding | Loading(_, _) | Passing | Leaving => true
    case Boarding | OpenBoarding(_) | Boarded | Announcing | OpenLanding(_) | Announced => true
    case Landing | Freeing | Landed | Finishing | OpenFinish(_) | FinishDone | Printing => true
    case _ => false
  }

  /** Posts to CAPTAIN a captain still owes. */
  function Owed(p: Proc): nat {
    if !p.captain then 0
    else
      match p.pc
      case Leaving | OnPier | AwaitBoarding | Boarding | OpenBoarding(_) | Boarded | AtBoarding => 4
      case AwaitAnnounce | Announcing | OpenLanding(_) | Announced | AtLanding => 4
      case Sailing(k) => if k < 4 then 4 - k else 0
      case _ => 0
  }

  function Bit(b: bool): nat { if b then 1 else 0 }

  /** How many processes stand where; admitted, freed and released count posts already made in the
      loop that is running, postedH and postedS those of the captain at the pier. */
  datatype Tally = Tally(
    holders: int, counting: int, deciding: int, passing: int, loading: int, postedH: int, postedS: int,
    freeing: int, boardH: int, boardS: int, hackers: int, awayH: int, awayS: int, waitH: int, waitS: int,
    aboard: int, toAnnounce: int, openB: int, admitted: int, sailed: int, openL: int, freed: int,
    passed: int, owed: int, toLand: int, past: int, openF: int, released: int, out: int)

  const NONE := Tally(0, 0, 0, 0, 0, 0, 0, 0, 0, 0, 0, 0, 0, 0, 0, 0, 0, 0, 0, 0, 0, 0, 0, 0, 0, 0, 0, 0, 0)

  /** What one process contributes. */
  function Unit(p: Proc): Tally {
    var h := p.kind == Hacker;
    Row(p.pc, h, NONE.(hackers := Bit(h), owed := Owed(p)))
  }

  /** The row of a process at pc, made from the row of its kind ashore. */
  /** The row of a process at pc, made from its row ashore. */
  function Row(pc: Pc, h: bool, ashore: Tally): Tally {
    match StageOf(pc)
    case Away => AwayRow(pc, ashore.(awayH := Bit(h), awayS := Bit(!h)))
    case Waiting => WaitingRow(pc, h, ashore.(waitH := Bit(h), waitS := Bit(!h)))
    case Aboard => AboardRow(pc, ashore.(aboard := 1))
    case Sailed => SailedRow(pc, ashore.(sailed := 1))
    case _ => AshoreRow(pc, ashore)
  }

  function AwayRow(pc: Pc, away: Tally): Tally {
    match pc
    case Starting => away.(holders := 1)
    case AwaitCount => away.(counting := 1)
    case Counting => away.(holders := 1, counting := 1)
    case _ => away
  }

  function WaitingRow(pc: Pc, h: bool, waiting: Tally): Tally {
    match pc
    case Reenter => waiting.(deciding := 1)
    case Deciding => waiting.(holders := 1, deciding := 1)
    case Loading(b, k) =>
      waiting.(holders := 1, loading := 1,
        postedH := if k < HackerSeats(b) then k else HackerSeats(b),
        postedS := if k < HackerSeats(b) then 0 else k - HackerSeats(b))
    case Passing => waiting.(holders := 1, passing := 1)
    case Leaving => waiting.(holders := 1)
    case AwaitBoarding => waiting.(boardH := Bit(h), boardS := Bit(!h))
    case Boarding => waiting.(holders := 1, boardH := Bit(h), boardS := Bit(!h))
    case _ => waiting
  }

  function AboardRow(pc: Pc, aboard: Tally): Tally {
    match pc
    case OpenBoarding(k) => aboard.(holders := 1, openB := 1, admitted := k)
    case Boarded => aboard.(holders := 1)
    case AwaitAnnounce => aboard.(toAnnounce := 1)
    case Announcing => aboard.(holders := 1, toAnnounce := 1)
    case _ => aboard
  }

  function SailedRow(pc: Pc, sailed: Tally): Tally {
    match pc
    case OpenLanding(k) => sailed.(holders := 1, openL := 1, freed := k)
    case Announced => sailed.(holders := 1)
    case Sailing(_) => sailed.(passed := 1)
    case AtCaptain => sailed.(passed := 1)
    case AwaitLanding => sailed.(passed := 1, toLand := 1)
    case Landing => sailed.(holders := 1, passed := 1, toLand := 1)
    case _ => sailed
  }

  function AshoreRow(pc: Pc, ashore: Tally): Tally {
    match pc
    case Freeing => ashore.(holders := 1, freeing := 1)
    case Landed => ashore.(holders := 1)
    case Finishing => ashore.(holders := 1)
    case OpenFinish(k) => ashore.(holders := 1, past := 1, openF := 1, released := k)
    case FinishDone => ashore.(holders := 1, past := 1)
    case AtFinish => ashore.(past := 1)
    case AwaitPrint => ashore.(past := 1, out := 1)
    case Printing => ashore.(holders := 1, past := 1, out := 1)
    case Done => ashore.(past := 1, out := 1)
    case _ => ashore
  }

  // ----- the row of every place -----

  lemma RowArriving(p: Proc)
    requires p.pc == Arriving
    ensures var h := p.kind == Hacker;
      Unit(p) == NONE.(hackers := Bit(h), awayH := Bit(h), awayS := Bit(!h))
    ensures StageOf(p.pc) == Away
  {}

  lemma RowStarting(p: Proc)
    requires p.pc == Starting
    ensures var h := p.kind == Hacker;
      Unit(p) == NONE.(holders := 1, hackers := Bit(h), awayH := Bit(h), awayS := Bit(!h))
    ensures StageOf(p.pc) == Away
  {}

  lemma RowAtMolo(p: Proc)
    requires p.pc == AtMolo
    ensures var h := p.kind == Hacker;
      Unit(p) == NONE.(hackers := Bit(h), awayH := Bit(h), awayS := Bit(!h))
    ensures StageOf(p.pc) == Away
  {}

  lemma RowAwaitCount(p: Proc)
    requires p.pc == AwaitCount
    ensures var h := p.kind == Hacker;
      Unit(p) == NONE.(counting := 1, hackers := Bit(h), awayH := Bit(h), awayS := Bit(!h))
    ensures StageOf(p.pc) == Away
  {}

  lemma RowCounting(p: Proc)
    requires p.pc == Counting
    ensures var h := p.kind == Hacker;
      Unit(p) == NONE.(holders := 1, counting := 1, hackers := Bit(h), awayH := Bit(h), awayS := Bit(!h))
    ensures StageOf(p.pc) == Away
  {}

  lemma RowReenter(p: Proc)
    requires p.pc == Reenter
    ensures var h := p.kind == Hacker;
      Unit(p) == NONE.(deciding := 1, hackers := Bit(h), waitH := Bit(h), waitS := Bit(!h))
    ensures StageOf(p.pc) == Waiting
  {}

  lemma RowDeciding(p: Proc)
    requires p.pc == Deciding
    ensures var h := p.kind == Hacker;
      Unit(p) == NONE.(holders := 1, deciding := 1, hackers := Bit(h), waitH := Bit(h), waitS := Bit(!h))
    ensures StageOf(p.pc) == Waiting
  {}

  lemma RowLoading(p: Proc, b: Boat, k: nat)
    requires p.pc == Loading(b, k)
    ensures var h := p.kind == Hacker;
      Unit(p) == NONE.(holders := 1, loading := 1, postedH := if k < HackerSeats(b) then k else HackerSeats(b),
        postedS := if k < HackerSeats(b) then 0 else k - HackerSeats(b), hackers := Bit(h), waitH := Bit(h),
        waitS := Bit(!h))
    ensures StageOf(p.pc) == Waiting
  {}

  lemma RowPassing(p: Proc)
    requires p.pc == Passing
    ensures var h := p.kind == Hacker;
      Unit(p) == NONE.(holders := 1, passing := 1, hackers := Bit(h), waitH := Bit(h), waitS := Bit(!h))
    ensures StageOf(p.pc) == Waiting
  {}

  lemma RowLeaving(p: Proc)
    requires p.pc == Leaving
    ensures var h := p.kind == Hacker;
      Unit(p) == NONE.(holders := 1, hackers := Bit(h), waitH := Bit(h), waitS := Bit(!h),
        owed := 4 * Bit(p.captain))
    ensures StageOf(p.pc) == Waiting
  {}

  lemma RowOnPier(p: Proc)
    requires p.pc == OnPier
    ensures var h := p.kind == Hacker;
      Unit(p) == NONE.(hackers := Bit(h), waitH := Bit(h), waitS := Bit(!h), owed := 4 * Bit(p.captain))
    ensures StageOf(p.pc) == Waiting
  {}

  lemma RowAwaitBoarding(p: Proc)
    requires p.pc == AwaitBoarding
    ensures var h := p.kind == Hacker;
      Unit(p) == NONE.(boardH := Bit(h), boardS := Bit(!h), hackers := Bit(h), waitH := Bit(h),
        waitS := Bit(!h), owed := 4 * Bit(p.captain))
    ensures StageOf(p.pc) == Waiting
  {}

  lemma RowBoarding(p: Proc)
    requires p.pc == Boarding
    ensures var h := p.kind == Hacker;
      Unit(p) == NONE.(holders := 1, boardH := Bit(h), boardS := Bit(!h), hackers := Bit(h), waitH := Bit(h),
        waitS := Bit(!h), owed := 4 * Bit(p.captain))
    ensures StageOf(p.pc) == Waiting
  {}

  lemma RowOpenBoarding(p: Proc, k: nat)
    requires p.pc == OpenBoarding(k)
    ensures var h := p.kind == Hacker;
      Unit(p) == NONE.(holders := 1, hackers := Bit(h), aboard := 1, openB := 1, admitted := k,
        owed := 4 * Bit(p.captain))
    ensures StageOf(p.pc) == Aboard
  {}

  lemma RowBoarded(p: Proc)
    requires p.pc == Boarded
    ensures var h := p.kind == Hacker;
      Unit(p) == NONE.(holders := 1, hackers := Bit(h), aboard := 1, owed := 4 * Bit(p.captain))
    ensures StageOf(p.pc) == Aboard
  {}

  lemma RowAtBoarding(p: Proc)
    requires p.pc == AtBoarding
    ensures var h := p.kind == Hacker;
      Unit(p) == NONE.(hackers := Bit(h), aboard := 1, owed := 4 * Bit(p.captain))
    ensures StageOf(p.pc) == Aboard
  {}

  lemma RowAwaitAnnounce(p: Proc)
    requires p.pc == AwaitAnnounce
    ensures var h := p.kind == Hacker;
      Unit(p) == NONE.(hackers := Bit(h), aboard := 1, toAnnounce := 1, owed := 4 * Bit(p.captain))
    ensures StageOf(p.pc) == Aboard
  {}

  lemma RowAnnouncing(p: Proc)
    requires p.pc == Announcing
    ensures var h := p.kind == Hacker;
      Unit(p) == NONE.(holders := 1, hackers := Bit(h), aboard := 1, toAnnounce := 1, owed := 4 * Bit(p.captain))
    ensures StageOf(p.pc) == Aboard
  {}

  lemma RowOpenLanding(p: Proc, k: nat)
    requires p.pc == OpenLanding(k)
    ensures var h := p.kind == Hacker;
      Unit(p) == NONE.(holders := 1, hackers := Bit(h), sailed := 1, openL := 1, freed := k,
        owed := 4 * Bit(p.captain))
    ensures StageOf(p.pc) == Sailed
  {}

  lemma RowAnnounced(p: Proc)
    requires p.pc == Announced
    ensures var h := p.kind == Hacker;
      Unit(p) == NONE.(holders := 1, hackers := Bit(h), sailed := 1, owed := 4 * Bit(p.captain))
    ensures StageOf(p.pc) == Sailed
  {}

  lemma RowAtLanding(p: Proc)
    requires p.pc == AtLanding
    ensures var h := p.kind == Hacker;
      Unit(p) == NONE.(hackers := Bit(h), sailed := 1, owed := 4 * Bit(p.captain))
    ensures StageOf(p.pc) == Sailed
  {}

  lemma RowSailing(p: Proc, k: nat)
    requires p.pc == Sailing(k)
    ensures var h := p.kind == Hacker;
      Unit(p) == NONE.(hackers := Bit(h), sailed := 1, passed := 1, owed := if p.captain && k < 4 then 4 - k else 0)
    ensures StageOf(p.pc) == Sailed
  {}

  lemma RowAtCaptain(p: Proc)
    requires p.pc == AtCaptain
    ensures var h := p.kind == Hacker;
      Unit(p) == NONE.(hackers := Bit(h), sailed := 1, passed := 1)
    ensures StageOf(p.pc) == Sailed
  {}

  lemma RowAwaitLanding(p: Proc)
    requires p.pc == AwaitLanding
    ensures var h := p.kind == Hacker;
      Unit(p) == NONE.(hackers := Bit(h), sailed := 1, passed := 1, toLand := 1)
    ensures StageOf(p.pc) == Sailed
  {}

  lemma RowLanding(p: Proc)
    requires p.pc == Landing
    ensures var h := p.kind == Hacker;
      Unit(p) == NONE.(holders := 1, hackers := Bit(h), sailed := 1, passed := 1, toLand := 1)
    ensures StageOf(p.pc) == Sailed
  {}

  lemma RowFreeing(p: Proc)
    requires p.pc == Freeing
    ensures var h := p.kind == Hacker;
      Unit(p) == NONE.(holders := 1, freeing := 1, hackers := Bit(h))
    ensures StageOf(p.pc) == Ashore
  {}

  lemma RowLanded(p: Proc)
    requires p.pc == Landed
    ensures var h := p.kind == Hacker;
      Unit(p) == NONE.(holders := 1, hackers := Bit(h))
    ensures StageOf(p.pc) == Ashore
  {}

  lemma RowAwaitFinish(p: Proc)
    requires p.pc == AwaitFinish
    ensures var h := p.kind == Hacker;
      Unit(p) == NONE.(hackers := Bit(h))
    ensures StageOf(p.pc) == Ashore
  {}

  lemma RowFinishing(p: Proc)
    requires p.pc == Finishing
    ensures var h := p.kind == Hacker;
      Unit(p) == NONE.(holders := 1, hackers := Bit(h))
    ensures StageOf(p.pc) == Ashore
  {}

  lemma RowOpenFinish(p: Proc, k: nat)
    requires p.pc == OpenFinish(k)
    ensures var h := p.kind == Hacker;
      Unit(p) == NONE.(holders := 1, hackers := Bit(h), past := 1, openF := 1, released := k)
    ensures StageOf(p.pc) == Ashore
  {}

  lemma RowFinishDone(p: Proc)
    requires p.pc == FinishDone
    ensures var h := p.kind == Hacker;
      Unit(p) == NONE.(holders := 1, hackers := Bit(h), past := 1)
    ensures StageOf(p.pc) == Ashore
  {}

  lemma RowAtFinish(p: Proc)
    requires p.pc == AtFinish
    ensures var h := p.kind == Hacker;
      Unit(p) == NONE.(hackers := Bit(h), past := 1)
    ensures StageOf(p.pc) == Ashore
  {}

  lemma RowAwaitPrint(p: Proc)
    requires p.pc == AwaitPrint
    ensures var h := p.kind == Hacker;
      Unit(p) == NONE.(hackers := Bit(h), past := 1, out := 1)
    ensures StageOf(p.pc) == Ashore
  {}

  lemma RowPrinting(p: Proc)
    requires p.pc == Printing
    ensures var h := p.kind == Hacker;
      Unit(p) == NONE.(holders := 1, hackers := Bit(h), past := 1, out := 1)
    ensures StageOf(p.pc) == Ashore
  {}

  lemma RowDone(p: Proc)
    requires p.pc == Done
    ensures var h := p.kind == Hacker;
      Unit(p) == NONE.(hackers := Bit(h), past := 1, out := 1)
    ensures StageOf(p.pc) == Finished
  {}

  function Plus(a: Tally, b: Tally): Tally {
    Tally(
      a.holders + b.holders, a.counting + b.counting, a.deciding + b.deciding, a.passing + b.passing,
      a.loading + b.loading, a.postedH + b.postedH, a.postedS + b.postedS, a.freeing + b.freeing,
      a.boardH + b.boardH, a.boardS + b.boardS, a.hackers + b.hackers, a.awayH + b.awayH, a.awayS + b.awayS,
      a.waitH + b.waitH, a.waitS + b.waitS, a.aboard + b.aboard, a.toAnnounce + b.toAnnounce,
      a.openB + b.openB, a.admitted + b.admitted, a.sailed + b.sailed, a.openL + b.openL, a.freed + b.freed,
      a.passed + b.passed, a.owed + b.owed, a.toLand + b.toLand, a.past + b.past, a.openF + b.openF,
      a.released + b.released, a.out + b.out)
  }

  function TallyOf(ps: seq<Proc>): Tally {
    if ps == [] then NONE else Plus(Unit(ps[0]), TallyOf(ps[1..]))
  }

  lemma PlusSwap(a: Tally, b: Tally, c: Tally)
    ensures Plus(a, Plus(b, c)) == Plus(b, Plus(a, c))
  {}

  /** Replacing one process exchanges its unit. */
  lemma {:induction false} TallyUpdate(ps: seq<Proc>, i: nat, q: Proc)
    requires i < |ps|
    ensures Plus(Unit(ps[i]), TallyOf(ps[i := q])) == Plus(Unit(q), TallyOf(ps))
  {
    hide Unit, Plus;
    if i == 0 {
      assert ps[0 := q][1..] == ps[1..];
      PlusSwap(Unit(ps[0]), Unit(q), TallyOf(ps[1..]));
    } else {
      var t := ps[1..];
      assert ps[i := q][1..] == t[i - 1 := q];
      TallyUpdate(t, i - 1, q);
      PlusSwap(Unit(ps[i]), Unit(ps[0]), TallyOf(t[i - 1 := q]));
      PlusSwap(Unit(q), Unit(ps[0]), TallyOf(t));
    }
  }

  ghost predicate AtMost(a: Tally, b: Tally) {
    && a.holders <= b.holders && a.counting <= b.counting && a.deciding <= b.deciding && a.passing <= b.passing
    && a.loading <= b.loading && a.postedH <= b.postedH && a.postedS <= b.postedS && a.freeing <= b.freeing
    && a.boardH <= b.boardH && a.boardS <= b.boardS && a.hackers <= b.hackers && a.awayH <= b.awayH && a.awayS <= b.awayS
    && a.waitH <= b.waitH && a.waitS <= b.waitS && a.aboard <= b.aboard && a.toAnnounce <= b.toAnnounce
    && a.openB <= b.openB && a.admitted <= b.admitted && a.sailed <= b.sailed && a.openL <= b.openL && a.freed <= b.freed
    && a.passed <= b.passed && a.owed <= b.owed && a.toLand <= b.toLand && a.past <= b.past && a.openF <= b.openF
    && a.released <= b.released && a.out <= b.out
  }

  lemma UnitSound(p: Proc)
    ensures AtMost(NONE, Unit(p)) && Consistent(Unit(p), 1)
  {
    hide Unit, StageOf, Row, Owed;
    match p.pc
    case Arriving => RowArriving(p);
    case Starting => RowStarting(p);
    case AtMolo => RowAtMolo(p);
    case AwaitCount => RowAwaitCount(p);
    case Counting => RowCounting(p);
    case Reenter => RowReenter(p);
    case Deciding => RowDeciding(p);
    case Loading(b, k) => RowLoading(p, b, k);
    case Passing => RowPassing(p);
    case Leaving => RowLeaving(p);
    case OnPier => RowOnPier(p);
    case AwaitBoarding => RowAwaitBoarding(p);
    case Boarding => RowBoarding(p);
    case OpenBoarding(k) => RowOpenBoarding(p, k);
    case Boarded => RowBoarded(p);
    case AtBoarding => RowAtBoarding(p);
    case AwaitAnnounce => RowAwaitAnnounce(p);
    case Announcing => RowAnnouncing(p);
    case OpenLanding(k) => RowOpenLanding(p, k);
    case Announced => RowAnnounced(p);
    case AtLanding => RowAtLanding(p);
    case Sailing(k) => RowSailing(p, k);
    case AtCaptain => RowAtCaptain(p);
    case AwaitLanding => RowAwaitLanding(p);
    case Landing => RowLanding(p);
    case Freeing => RowFreeing(p);
    case Landed => RowLanded(p);
    case AwaitFinish => RowAwaitFinish(p);
    case Finishing => RowFinishing(p);
    case OpenFinish(k) => RowOpenFinish(p, k);
    case FinishDone => RowFinishDone(p);
    case AtFinish => RowAtFinish(p);
    case AwaitPrint => RowAwaitPrint(p);
    case Printing => RowPrinting(p);
    case Done => RowDone(p);
  }

  lemma PlusMono(a: Tally, b: Tally)
    requires AtMost(NONE, a) && AtMost(NONE, b)
    ensures AtMost(NONE, Plus(a, b)) && AtMost(a, Plus(a, b)) && AtMost(b, Plus(a, b))
  {}

  lemma AtMostTrans(a: Tally, b: Tally, c: Tally)
    requires AtMost(a, b) && AtMost(b, c)
    ensures AtMost(a, c)
  {}

  lemma {:induction false} TallyNonnegative(ps: seq<Proc>)
    ensures AtMost(NONE, TallyOf(ps))
  {
    hide Unit, Plus, AtMost;
    if ps == [] {
      NoneAtMost();
    } else {
      TallyNonnegative(ps[1..]);
      UnitSound(ps[0]);
      PlusMono(Unit(ps[0]), TallyOf(ps[1..]));
    }
  }

  lemma NoneAtMost()
    ensures AtMost(NONE, NONE)
  {}

  /** No process counts for more than the whole. */
  lemma {:induction false} UnitAtMost(ps: seq<Proc>, i: nat)
    requires i < |ps|
    ensures AtMost(Unit(ps[i]), TallyOf(ps))
  {
    hide Unit, Plus, AtMost;
    TallyNonnegative(ps[1..]);
    UnitSound(ps[0]);
    PlusMono(Unit(ps[0]), TallyOf(ps[1..]));
    if i > 0 {
      UnitAtMost(ps[1..], i - 1);
      AtMostTrans(Unit(ps[i]), TallyOf(ps[1..]), TallyOf(ps));
    }
  }

  predicate ProcOk(p: Proc, n: nat) {
    match p.pc
    case Loading(_, k) => k < 4
    case OpenBoarding(k) => k < 4
    case OpenLanding(k) => k < 4
    case Sailing(k) => k < 4 && p.captain
    case OpenFinish(k) => k < n
    case _ => true
  }

  /** The stages and the loops under EXCLUSIVE do not overlap, and posts are counted in their loop only. */
  predicate Consistent(t: Tally, n: nat) {
    && t.awayH + t.awayS + t.waitH + t.waitS + t.aboard + t.sailed + t.past <= n
    && t.openB + t.openL + t.openF + t.loading + t.passing + t.freeing <= t.holders
    && (t.loading == 0 ==> t.postedH == t.postedS == 0)
    && (t.openB == 0 ==> t.admitted == 0)
    && (t.openL == 0 ==> t.freed == 0)
    && (t.openF == 0 ==> t.released == 0)
    && t.out <= t.past
  }

  lemma PlusConsistent(a: Tally, b: Tally, n: nat)
    requires AtMost(NONE, a) && AtMost(NONE, b) && Consistent(a, 1) && Consistent(b, n)
    ensures Consistent(Plus(a, b), n + 1)
  {}

  lemma {:induction false} TallyConsistent(ps: seq<Proc>)
    ensures Consistent(TallyOf(ps), |ps|)
  {
    hide Unit, Plus, AtMost;
    if ps != [] {
      hide Consistent;
      TallyConsistent(ps[1..]);
      TallyNonnegative(ps[1..]);
      UnitSound(ps[0]);
      PlusConsistent(Unit(ps[0]), TallyOf(ps[1..]), |ps| - 1);
    }
  }

  /** Tallies agree on everything that happens in loops under EXCLUSIVE. */
  predicate SameLoops(a: Tally, b: Tally) {
    && a.openB == b.openB && a.openL == b.openL && a.openF == b.openF
    && a.loading == b.loading && a.passing == b.passing && a.freeing == b.freeing
    && a.postedH == b.postedH && a.postedS == b.postedS
    && a.admitted == b.admitted && a.freed == b.freed && a.released == b.released
  }

  lemma DoneUnit(kind: Kind)
    ensures var u := Unit(Proc(kind, Done, false));
      u.holders == 0 && SameLoops(u, NONE)
  {}

  /** The only holder of EXCLUSIVE is the only process inside a loop of posts. */
  lemma SoleHolder(ps: seq<Proc>, i: nat)
    requires i < |ps| && HoldsExclusive(ps[i].pc) && TallyOf(ps).holders == 1
    ensures SameLoops(TallyOf(ps), Unit(ps[i]))
  {
    hide TallyOf, Unit;
    var q := Proc(ps[i].kind, Done, false);
    TallyUpdate(ps, i, q);
    DoneUnit(ps[i].kind);
    HolderUnit(ps[i]);
    TallyConsistent(ps[i := q]);
    TallyNonnegative(ps[i := q]);
  }

  lemma HolderUnit(p: Proc)
    ensures Unit(p).holders == Bit(HoldsExclusive(p.pc))
  {}

  lemma NoneLoading(ps: seq<Proc>)
    ensures TallyOf(ps).loading == 0 ==> forall j :: 0 <= j < |ps| ==> !ps[j].pc.Loading?
    ensures TallyOf(ps).deciding == 0 ==> forall j :: 0 <= j < |ps| ==> !ps[j].pc.Reenter? && !ps[j].pc.Deciding?
  {
    hide TallyOf;
    forall j | 0 <= j < |ps|
      ensures TallyOf(ps).loading == 0 ==> !ps[j].pc.Loading?
      ensures TallyOf(ps).deciding == 0 ==> !ps[j].pc.Reenter? && !ps[j].pc.Deciding?
    {
      UnitAtMost(ps, j);
    }
  }
}
