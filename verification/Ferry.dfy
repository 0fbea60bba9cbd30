/** The ferry the river-crossing program is meant to implement, as a machine that reads the printed
    lines: who may wait, board, announce, land and finish, and when. */
module Ferry {
  import opened Wrappers
  import opened River

  datatype Stage = Away | Waiting | Aboard | Sailed | Ashore | Finished

  /** Between voyages; or a voyage filling its seats; or with n people having announced, or landed. */
  datatype Mode =
    | AtPier
    | Filling(hackerSeats: nat, serfSeats: nat)
    | Calling(called: nat)
    | Unloading(landed: nat)

  /** hackers and serfs count the people on the pier who are not assigned to the current boat. */
  datatype Ferry = Ferry(
    kinds: seq<Kind>, stage: seq<Stage>, mode: Mode,
    hackers: nat, serfs: nat, captain: nat, voyages: nat)

  function Start(kinds: seq<Kind>): Ferry {
    Ferry(kinds, seq(|kinds|, _ => Away), AtPier, 0, 0, 0, 0)
  }

  /** The boat that a group of waiting people can fill: four of a kind, else two and two. */
  function Group(hackers: int, serfs: int): Option<Boat> {
    if hackers == 4 then Some(FourHackers)
    else if serfs == 4 then Some(FourSerfs)
    else if hackers >= 2 && serfs >= 2 then Some(TwoAndTwo)
    else None
  }

  function Move(f: Ferry, i: nat, g: Stage): Ferry
    requires i < |f.stage|
  {
    f.(stage := f.stage[i := g])
  }

  /** A person joins the pier; if that completes a group, the person becomes its captain. */
  function Join(f: Ferry, i: nat, hackers: nat, serfs: nat): Ferry
    requires i < |f.stage|
  {
    var g := Move(f, i, Waiting);
    match Group(hackers, serfs)
    case None => g.(hackers := hackers, serfs := serfs)
    case Some(boat) =>
      if HackerSeats(boat) <= hackers && SerfSeats(boat) <= serfs then
        g.(hackers := hackers - HackerSeats(boat), serfs := serfs - SerfSeats(boat), captain := i,
           mode := Filling(HackerSeats(boat), SerfSeats(boat)))
      else g
  }

  /** The ferry after the line e, or None if the line may not be printed now. */
  function Accept(f: Ferry, e: Event): Option<Ferry> {
    var i := e.who;
    if i >= |f.stage| || i >= |f.kinds| then None
    else
      match e
      case EStarted(_) => if f.stage[i] == Away then Some(f) else None
      case EWaiting(_, h, s) =>
        if f.mode == AtPier && f.stage[i] == Away then
          var hackers := if f.kinds[i] == Hacker then f.hackers + 1 else f.hackers;
          var serfs := if f.kinds[i] == Serf then f.serfs + 1 else f.serfs;
          if h == hackers && s == serfs then Some(Join(f, i, hackers, serfs)) else None
        else None
      case EBoarding(_, h, s) =>
        if f.mode.Filling? && f.stage[i] == Waiting && h == f.hackers && s == f.serfs then
          var hs := f.mode.hackerSeats - if f.kinds[i] == Hacker then 1 else 0;
          var ss := f.mode.serfSeats - if f.kinds[i] == Serf then 1 else 0;
          var g := Move(f, i, Aboard);
          if hs < 0 || ss < 0 then None
          else if hs + ss > 0 then Some(g.(mode := Filling(hs, ss)))
          else if f.captain < |g.stage| && g.stage[f.captain] == Aboard then Some(g.(mode := Calling(0)))
          else None
        else None
      case EAnnounced(_, captain) =>
        if f.mode.Calling? && f.stage[i] == Aboard && captain == (i == f.captain) then
          Some(Move(f, i, Sailed).(mode := if f.mode.called + 1 < 4 then Calling(f.mode.called + 1) else Unloading(0)))
        else None
      case ELanding(_, h, s) =>
        if f.mode.Unloading? && f.stage[i] == Sailed && h == f.hackers && s == f.serfs then
          var g := Move(f, i, Ashore);
          if f.mode.landed + 1 < 4 then Some(g.(mode := Unloading(f.mode.landed + 1)))
          else Some(g.(mode := AtPier, voyages := f.voyages + 1))
        else None
      case EFinished(_) =>
        if f.stage[i] == Ashore && forall k :: 0 <= k < |f.stage| ==> f.stage[k] == Ashore || f.stage[k] == Finished
        then Some(Move(f, i, Finished)) else None
  }

  /** The ferry after a whole output file, or None if some line was out of order. */
  function Watch(kinds: seq<Kind>, log: seq<Event>): Option<Ferry> {
    if log == [] then Some(Start(kinds))
    else
      match Watch(kinds, log[..|log| - 1])
      case None => None
      case Some(f) => Accept(f, log[|log| - 1])
  }
}
