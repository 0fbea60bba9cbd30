/** Enumeration sort on a line of processes: process 0 is the master, each other holds one number, counts
    its rank, and sends its number to the process with that rank. Channels are buffered and keep order. */
module Enumeration {
  import opened Wrappers
  import opened Fifo

  datatype Tag = TagX | TagY | TagZ | TagO

  datatype Channel = Channel(src: int, dst: int, tag: Tag)

  /** The value that no number of the input has. */
  const EMPTY := 65535

  datatype Pc =
    | SendX(i: nat) | SendY(i: nat) | Collect(i: nat)
    | RecvX | TakeY(i: nat) | PassY(i: nat) | Route | Fetch | Shift(i: nat) | Pull(i: nat)
    | Done

  datatype Proc = Proc(pc: Pc, x: int, y: int, z: int, c: int, numbers: seq<int>)

  datatype State = State(procs: seq<Proc>, queues: map<Channel, seq<int>>)

  function Put(v: seq<int>, i: int, e: int): seq<int> { if 0 <= i < |v| then v[i := e] else v }

  /** The process that the results of process id go to, of n numbers. */
  function Receiver(id: int, n: int): int { if id != n then id + 1 else 0 }

  /** The channel the next step of process id receives from; any is its choice where it takes a message
      from any source. */
  function Source(n: int, p: Proc, id: nat, any: nat): Option<Channel> {
    match p.pc
    case Collect(i) => if i <= n then Some(Channel(n, 0, TagO)) else None
    case RecvX => Some(Channel(0, id, TagX))
    case TakeY(i) => if i <= n then Some(Channel(id - 1, id, TagY)) else None
    case Fetch => Some(Channel(any, id, TagZ))
    case Pull(_) => Some(Channel(id - 1, id, TagO))
    case _ => None
  }

  function Target(xs: seq<int>, p: Proc, id: nat): Option<(Channel, int)> {
    match p.pc
    case SendX(i) => if i <= |xs| then Some((Channel(0, i, TagX), Get(xs, i - 1))) else None
    case SendY(i) => Some((Channel(0, 1, TagY), Get(xs, i - 1)))
    case PassY(_) => if id != |xs| then Some((Channel(id, id + 1, TagY), p.y)) else None
    case Route => Some((Channel(id, p.c, TagZ), p.x))
    case Shift(_) => Some((Channel(id, Receiver(id, |xs|), TagO), p.z))
    case _ => None
  }

  /** Does the i-th number y count towards the rank of x at process id? */
  predicate Counts(x: int, y: int, i: int, id: int) {
    x != EMPTY && y != EMPTY && ((i < id && x >= y) || x > y)
  }

  /** The process after its next step; v is the value received, if it receives one. */
  function After(xs: seq<int>, p: Proc, id: nat, v: int): Proc {
    match p.pc
    case SendX(i) => p.(pc := if i <= |xs| then SendY(i) else Collect(1))
    case SendY(i) => p.(pc := SendX(i + 1))
    case Collect(i) =>
      if i <= |xs| then p.(numbers := Put(p.numbers, |xs| - i, v), pc := Collect(i + 1)) else p.(pc := Done)
    case RecvX => p.(x := v, pc := TakeY(1))
    case TakeY(i) => if i <= |xs| then p.(y := v, pc := PassY(i)) else p.(pc := Route)
    case PassY(i) => p.(c := p.c + (if Counts(p.x, p.y, i, id) then 1 else 0), pc := TakeY(i + 1))
    case Route => p.(pc := Fetch)
    case Fetch => p.(z := v, pc := Shift(1))
    case Shift(i) => p.(pc := if i < id then Pull(i) else Done)
    case Pull(i) => p.(z := v, pc := Shift(i + 1))
    case Done => p
  }

  function Queue(s: State, ch: Channel): seq<int> {
    Held(s.queues, ch)
  }

  predicate Enabled(xs: seq<int>, s: State, id: nat, any: nat) {
    && id < |s.procs| && !s.procs[id].pc.Done?
    && match Source(|xs|, s.procs[id], id, any) case None => true case Some(ch) => Queue(s, ch) != []
  }

  function Message(xs: seq<int>, s: State, id: nat, any: nat): int
    requires id < |s.procs|
  {
    match Source(|xs|, s.procs[id], id, any) case None => 0 case Some(ch) => Get(Queue(s, ch), 0)
  }

  function Next(xs: seq<int>, s: State, id: nat, any: nat): State
    requires Enabled(xs, s, id, any)
  {
    var p := s.procs[id];
    State(s.procs[id := After(xs, p, id, Message(xs, s, id, any))], Push(Pop(s.queues, Source(|xs|, p, id, any)), Target(xs, p, id)))
  }

  /** The master has the numbers; there is one other process for each. */
  function Init(xs: seq<int>): State {
    State(seq(|xs| + 1,
              id => Proc(if id == 0 then SendX(1) else RecvX, EMPTY, EMPTY, EMPTY, 1, if id == 0 then seq(|xs|, _ => 0) else [])),
          map[])
  }

  /** A schedule says which process steps, and which source it takes where it has a choice. */
  function Run(xs: seq<int>, schedule: seq<(nat, nat)>): Option<State> {
    if schedule == [] then Some(Init(xs))
    else
      match Run(xs, schedule[..|schedule| - 1])
      case None => None
      case Some(r) =>
        var (id, any) := schedule[|schedule| - 1];
        if Enabled(xs, r, id, any) then Some(Next(xs, r, id, any)) else None
  }

  ghost predicate Stuck(xs: seq<int>, s: State) {
    forall id: nat, any: nat :: !Enabled(xs, s, id, any)
  }
}
