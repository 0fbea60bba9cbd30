/** The river-crossing program: every process runs the same straight-line protocol over eight
    semaphores and five shared counters; a step of the system is one step of one process. */
module River {
  import opened Wrappers

  datatype Kind = Hacker | Serf

  /** The three boats the protocol may form. */
  datatype Boat = FourHackers | FourSerfs | TwoAndTwo

  function HackerSeats(b: Boat): nat {
    match b case FourHackers => 4 case FourSerfs => 0 case TwoAndTwo => 2
  }

  function SerfSeats(b: Boat): nat {
    4 - HackerSeats(b)
  }

  /** Where a process stands; Await* states wait for EXCLUSIVE, At* states for the named semaphore,
      and the states with an index are inside a loop of posts. */
  datatype Pc =
    | Arriving | Starting | AtMolo | AwaitCount | Counting | Reenter | Deciding
    | Loading(boat: Boat, posted: nat) | Passing | Leaving
    | OnPier | AwaitBoarding | Boarding | OpenBoarding(admitted: nat) | Boarded
    | AtBoarding | AwaitAnnounce | Announcing | OpenLanding(freed: nat) | Announced
    | AtLanding | Sailing(woken: nat) | AtCaptain | AwaitLanding | Landing | Freeing | Landed
    | AwaitFinish | Finishing | OpenFinish(released: nat) | FinishDone
    | AtFinish | AwaitPrint | Printing | Done

  datatype Proc = Proc(kind: Kind, pc: Pc, captain: bool)

  /** A line of the output file, without its running number. */
  datatype Event =
    | EStarted(who: nat)
    | EWaiting(who: nat, hackers: int, serfs: int)
    | EBoarding(who: nat, hackers: int, serfs: int)
    | EAnnounced(who: nat, captain: bool)
    | ELanding(who: nat, hackers: int, serfs: int)
    | EFinished(who: nat)

  datatype State = State(
    procs: seq<Proc>,
    exclusive: nat, molo: nat, hacker: nat, serf: nat,
    boarding: nat, landing: nat, captain: nat, finish: nat,
    hackers: int, serfs: int, waiting: int, toFinish: int, counter: int,
    log: seq<Event>)

  function Init(kinds: seq<Kind>): State {
    State(seq(|kinds|, i requires 0 <= i < |kinds| => Proc(kinds[i], Arriving, false)),
          1, 1, 0, 0, 0, 0, 0, 0,
          0, 0, 0, 0, 0, [])
  }

  /** Can process i take a step? Only waiting on a semaphore at zero, or being done, stops it. */
  predicate Enabled(s: State, i: nat) {
    i < |s.procs| &&
    match s.procs[i].pc
    case Arriving | AwaitCount | Reenter | AwaitBoarding | AwaitAnnounce | AwaitLanding | AwaitFinish | AwaitPrint =>
      s.exclusive > 0
    case AtMolo => s.molo > 0
    case OnPier => if s.procs[i].kind == Hacker then s.hacker > 0 else s.serf > 0
    case AtBoarding => s.boarding > 0
    case AtLanding => s.landing > 0
    case AtCaptain => s.captain > 0
    case AtFinish => s.finish > 0
    case Done => false
    case _ => true
  }

  function Goto(s: State, i: nat, pc: Pc): State
    requires i < |s.procs|
  {
    s.(procs := s.procs[i := s.procs[i].(pc := pc)])
  }

  /** sem_wait(EXCLUSIVE) and go on. */
  function Lock(s: State, i: nat, pc: Pc): State
    requires i < |s.procs| && s.exclusive > 0
  {
    Goto(s, i, pc).(exclusive := s.exclusive - 1)
  }

  /** sem_post(EXCLUSIVE) and go on. */
  function Unlock(s: State, i: nat, pc: Pc): State
    requires i < |s.procs|
  {
    Goto(s, i, pc).(exclusive := s.exclusive + 1)
  }

  function Print(s: State, e: Event): State {
    s.(counter := s.counter + 1, log := s.log + [e])
  }

  /** What the process that just counted itself decides to do. */
  function Decision(hackers: int, serfs: int): Pc {
    if hackers == 4 then Loading(FourHackers, 0)
    else if serfs == 4 then Loading(FourSerfs, 0)
    else if hackers >= 2 && serfs >= 2 then Loading(TwoAndTwo, 0)
    else Passing
  }

  /** One post to a passenger's semaphore; with the last one the group leaves the pier counts. */
  function Load(s: State, i: nat, boat: Boat, posted: nat): State
    requires i < |s.procs|
  {
    var s1 := if posted < HackerSeats(boat) then s.(hacker := s.hacker + 1) else s.(serf := s.serf + 1);
    if posted + 1 < 4 then Goto(s1, i, Loading(boat, posted + 1))
    else s1.(procs := s.procs[i := s.procs[i].(pc := Leaving, captain := true)],
             hackers := s.hackers - HackerSeats(boat), serfs := s.serfs - SerfSeats(boat))
  }

  /** The step of process i. */
  function Next(s: State, i: nat): State
    requires Enabled(s, i)
  {
    var p := s.procs[i];
    match p.pc
    case Arriving => Lock(s, i, Starting)
    case Starting => Unlock(Print(s, EStarted(i)), i, AtMolo)
    case AtMolo => Goto(s, i, AwaitCount).(molo := s.molo - 1)
    case AwaitCount => Lock(s, i, Counting)
    case Counting =>
      var s1 := if p.kind == Hacker then s.(hackers := s.hackers + 1) else s.(serfs := s.serfs + 1);
      Unlock(Print(s1, EWaiting(i, s1.hackers, s1.serfs)), i, Reenter)
    case Reenter => Lock(s, i, Deciding)
    case Deciding => Goto(s, i, Decision(s.hackers, s.serfs))
    case Loading(boat, posted) => Load(s, i, boat, posted)
    case Passing => Goto(s, i, Leaving).(molo := s.molo + 1)
    case Leaving => Unlock(s, i, OnPier)
    case OnPier =>
      if p.kind == Hacker then Goto(s, i, AwaitBoarding).(hacker := s.hacker - 1)
      else Goto(s, i, AwaitBoarding).(serf := s.serf - 1)
    case AwaitBoarding => Lock(s, i, Boarding)
    case Boarding =>
      var s1 := Print(s, EBoarding(i, s.hackers, s.serfs)).(waiting := s.waiting + 1);
      Goto(s1, i, if s1.waiting == 4 then OpenBoarding(0) else Boarded)
    case OpenBoarding(k) =>
      var s1 := s.(boarding := s.boarding + 1);
      if k + 1 < 4 then Goto(s1, i, OpenBoarding(k + 1)) else Goto(s1, i, Boarded).(waiting := 0)
    case Boarded => Unlock(s, i, AtBoarding)
    case AtBoarding => Goto(s, i, AwaitAnnounce).(boarding := s.boarding - 1)
    case AwaitAnnounce => Lock(s, i, Announcing)
    case Announcing =>
      var s1 := Print(s, EAnnounced(i, p.captain)).(waiting := s.waiting + 1);
      Goto(s1, i, if s1.waiting == 4 then OpenLanding(0) else Announced)
    case OpenLanding(k) =>
      var s1 := s.(landing := s.landing + 1);
      if k + 1 < 4 then Goto(s1, i, OpenLanding(k + 1)) else Goto(s1, i, Announced).(waiting := 0)
    case Announced => Unlock(s, i, AtLanding)
    case AtLanding => Goto(s, i, if p.captain then Sailing(0) else AtCaptain).(landing := s.landing - 1)
    case Sailing(k) => Goto(s, i, if k + 1 < 4 then Sailing(k + 1) else AtCaptain).(captain := s.captain + 1)
    case AtCaptain => Goto(s, i, AwaitLanding).(captain := s.captain - 1)
    case AwaitLanding => Lock(s, i, Landing)
    case Landing =>
      var s1 := Print(s, ELanding(i, s.hackers, s.serfs)).(waiting := s.waiting + 1);
      Goto(s1, i, if s1.waiting == 4 then Freeing else Landed)
    case Freeing => Goto(s, i, Landed).(molo := s.molo + 1, waiting := 0)
    case Landed => Unlock(s, i, AwaitFinish)
    case AwaitFinish => Lock(s, i, Finishing)
    case Finishing =>
      var s1 := s.(toFinish := s.toFinish + 1);
      Goto(s1, i, if s1.toFinish == |s.procs| then OpenFinish(0) else FinishDone)
    case OpenFinish(k) =>
      Goto(s, i, if k + 1 < |s.procs| then OpenFinish(k + 1) else FinishDone).(finish := s.finish + 1)
    case FinishDone => Unlock(s, i, AtFinish)
    case AtFinish => Goto(s, i, AwaitPrint).(finish := s.finish - 1)
    case AwaitPrint => Lock(s, i, Printing)
    case Printing => Unlock(Print(s, EFinished(i)), i, Done)
  }

  /** The state after the scheduled processes stepped in that order, or None if one of them could not. */
  function Run(kinds: seq<Kind>, schedule: seq<nat>): Option<State> {
    if schedule == [] then Some(Init(kinds))
    else
      match Run(kinds, schedule[..|schedule| - 1])
      case None => None
      case Some(r) =>
        var i := schedule[|schedule| - 1];
        if Enabled(r, i) then Some(Next(r, i)) else None
  }

  /** No process can step. */
  ghost predicate Stuck(s: State) {
    forall i: nat :: !Enabled(s, i)
  }
}
