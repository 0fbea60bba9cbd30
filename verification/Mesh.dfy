/** Matrix multiplication on a mesh: every process is a sequential program over buffered channels that
    keep the order of their messages; a step of the system is one step of one process. */
module Mesh {
  import opened Wrappers
  import opened Fifo

  datatype Tag = TagA | TagB | TagC | TagP

  datatype Channel = Channel(src: int, dst: int, tag: Tag)

  /** The two files: their first lines and the numbers after them. */
  datatype Input = Input(rows: int, cols: int, mat1: seq<int>, mat2: seq<int>)

  function Div(a: int, b: int): int { if b == 0 then 0 else a / b }

  function Mod(a: int, b: int): int { if b == 0 then 0 else a % b }

  /** The inner dimension. */
  function Inner(g: Input): int { Div(|g.mat1|, g.rows) }

  /** The program does not abort on this input. */
  predicate Accepted(g: Input) {
    g.rows > 0 && g.cols > 0 && Inner(g) == Div(|g.mat2|, g.cols)
  }

  function GetIndex(i: int, j: int, cols: int): int { cols * i + j }

  predicate LeftBorder(id: int, cols: int) { Mod(id, cols) == 0 }

  predicate TopBorder(id: int, cols: int) { id < cols }

  predicate RightBorder(id: int, cols: int) { Mod(id + 1, cols) == 0 }

  predicate BottomBorder(id: int, rows: int, cols: int) { id >= cols * (rows - 1) }

  datatype Pc =
    | SendParam(i: nat, k: nat) | SendA(i: nat, j: nat) | SendB(i: nat, j: nat)
    | RecvParam(k: nat) | RecvA(i: nat) | RecvB(i: nat)
    | TakeA(i: nat) | TakeB(i: nat) | PassRight(i: nat) | PassDown(i: nat)
    | SendC | Gather(i: nat) | Done

  datatype Proc = Proc(
    pc: Pc, n: int, rows: int, cols: int, vecA: seq<int>, vecB: seq<int>, a: int, b: int, c: int, result: seq<int>)

  datatype State = State(procs: seq<Proc>, queues: map<Channel, seq<int>>)

  function Param(g: Input, k: nat): int {
    if k == 0 then Inner(g) else if k == 1 then g.rows else g.cols
  }

  /** The channel the next step of process id receives from. */
  function Source(p: Proc, id: nat): Option<Channel> {
    match p.pc
    case RecvParam(_) => Some(Channel(0, id, TagP))
    case RecvA(i) => if LeftBorder(id, p.cols) && i < p.n then Some(Channel(0, id, TagA)) else None
    case RecvB(i) => if TopBorder(id, p.cols) && i < p.n then Some(Channel(0, id, TagB)) else None
    case TakeA(i) => if i < p.n && !LeftBorder(id, p.cols) then Some(Channel(id - 1, id, TagA)) else None
    case TakeB(_) => if !TopBorder(id, p.cols) then Some(Channel(id - p.cols, id, TagB)) else None
    case Gather(i) => if i < p.rows * p.cols then Some(Channel(i, 0, TagC)) else None
    case _ => None
  }

  /** The channel and the value the next step of process id sends. */
  function Target(g: Input, p: Proc, id: nat): Option<(Channel, int)> {
    match p.pc
    case SendParam(i, k) => if i < g.rows * g.cols then Some((Channel(0, i, TagP), Param(g, k))) else None
    case SendA(i, j) =>
      if i < g.rows && j < Inner(g) then Some((Channel(0, i * g.cols, TagA), Get(g.mat1, GetIndex(i, j, Inner(g))))) else None
    case SendB(i, j) =>
      if i < Inner(g) && j < g.cols then Some((Channel(0, j, TagB), Get(g.mat2, GetIndex(i, j, g.cols)))) else None
    case PassRight(_) => if !RightBorder(id, p.cols) then Some((Channel(id, id + 1, TagA), p.a)) else None
    case PassDown(_) => if !BottomBorder(id, p.rows, p.cols) then Some((Channel(id, id + p.cols, TagB), p.b)) else None
    case SendC => Some((Channel(id, 0, TagC), p.c))
    case _ => None
  }

  /** The process after its next step; v is the value received, if it receives one. */
  function After(g: Input, p: Proc, id: nat, v: int): Proc {
    match p.pc
    case SendParam(i, k) =>
      if i >= g.rows * g.cols then p.(pc := SendA(0, 0))
      else p.(pc := if k + 1 < 3 then SendParam(i, k + 1) else SendParam(i + 1, 0))
    case SendA(i, j) =>
      if i >= g.rows then p.(pc := SendB(0, 0))
      else p.(pc := if j < Inner(g) then SendA(i, j + 1) else SendA(i + 1, 0))
    case SendB(i, j) =>
      if i >= Inner(g) then p.(pc := RecvParam(0))
      else p.(pc := if j < g.cols then SendB(i, j + 1) else SendB(i + 1, 0))
    case RecvParam(k) =>
      if k == 0 then p.(n := v, pc := RecvParam(1))
      else if k == 1 then p.(rows := v, pc := RecvParam(2))
      else p.(cols := v, pc := RecvA(0))
    case RecvA(i) =>
      if LeftBorder(id, p.cols) && i < p.n then p.(vecA := p.vecA + [v], pc := RecvA(i + 1)) else p.(pc := RecvB(0))
    case RecvB(i) =>
      if TopBorder(id, p.cols) && i < p.n then p.(vecB := p.vecB + [v], pc := RecvB(i + 1)) else p.(pc := TakeA(0))
    case TakeA(i) =>
      if i >= p.n then p.(pc := SendC)
      else p.(a := if LeftBorder(id, p.cols) then Get(p.vecA, i) else v, pc := TakeB(i))
    case TakeB(i) =>
      var b := if TopBorder(id, p.cols) then Get(p.vecB, i) else v;
      p.(b := b, c := p.c + p.a * b, pc := PassRight(i))
    case PassRight(i) => p.(pc := PassDown(i))
    case PassDown(i) => p.(pc := TakeA(i + 1))
    case SendC => p.(pc := if id == 0 then Gather(0) else Done)
    case Gather(i) => if i < p.rows * p.cols then p.(result := p.result + [v], pc := Gather(i + 1)) else p.(pc := Done)
    case Done => p
  }

  function Queue(s: State, ch: Channel): seq<int> {
    Held(s.queues, ch)
  }

  /** Process id can step: it is not done, and if it is about to receive, there is a message. */
  predicate Enabled(s: State, id: nat) {
    && id < |s.procs| && !s.procs[id].pc.Done?
    && match Source(s.procs[id], id) case None => true case Some(ch) => Queue(s, ch) != []
  }

  /** The message process id receives in its next step. */
  function Message(s: State, id: nat): int
    requires id < |s.procs|
  {
    match Source(s.procs[id], id) case None => 0 case Some(ch) => Get(Queue(s, ch), 0)
  }

  function Next(g: Input, s: State, id: nat): State
    requires Enabled(s, id)
  {
    var p := s.procs[id];
    State(s.procs[id := After(g, p, id, Message(s, id))], Push(Pop(s.queues, Source(p, id)), Target(g, p, id)))
  }

  /** All processes start at once; process 0 first reads the files and sends them out. */
  function Init(g: Input): State {
    State(seq(if g.rows * g.cols < 0 then 0 else g.rows * g.cols,
              id => Proc(if id == 0 then SendParam(0, 0) else RecvParam(0), 0, 0, 0, [], [], 0, 0, 0, [])), map[])
  }

  function Run(g: Input, schedule: seq<nat>): Option<State> {
    if schedule == [] then Some(Init(g))
    else
      match Run(g, schedule[..|schedule| - 1])
      case None => None
      case Some(r) =>
        var id := schedule[|schedule| - 1];
        if Enabled(r, id) then Some(Next(g, r, id)) else None
  }

  ghost predicate Stuck(s: State) {
    forall id: nat :: !Enabled(s, id)
  }
}
