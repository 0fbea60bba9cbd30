/** Every interleaving of the mesh program carries row r of A along row r and column c of B down column c,
    never gets stuck, and ends with the product of the matrices. */
module MeshProduct {
  import opened Wrappers
  import opened Fifo
  import opened Mesh

  // ----- what the processes are meant to see -----

  /** Row r of the first matrix and column c of the second. */
  function RowA(g: Input, r: int): seq<int> {
    seq(if Inner(g) < 0 then 0 else Inner(g), k => Get(g.mat1, GetIndex(r, k, Inner(g))))
  }

  function ColB(g: Input, c: int): seq<int> {
    seq(if Inner(g) < 0 then 0 else Inner(g), k => Get(g.mat2, GetIndex(k, c, g.cols)))
  }

  /** The sum of the first k products of row r and column c. */
  function Dot(g: Input, r: int, c: int, k: nat): int {
    if k == 0 then 0 else Dot(g, r, c, k - 1) + Get(RowA(g, r), k - 1) * Get(ColB(g, c), k - 1)
  }

  function Row(g: Input, id: int): int { Div(id, g.cols) }

  function Col(g: Input, id: int): int { Mod(id, g.cols) }

  function Size(g: Input): int { g.rows * g.cols }

  function Entry(g: Input, id: int): int {
    if Inner(g) < 0 then 0 else Dot(g, Row(g, id), Col(g, id), Inner(g))
  }

  /** The product matrix, row by row. */
  function Product(g: Input): seq<int> {
    seq(if Size(g) < 0 then 0 else Size(g), id => Entry(g, id))
  }

  /** Everything that is ever sent on a channel. Values for the left border come from the control
      process, others from the neighbour; no channel carries both. */
  function Full(g: Input, ch: Channel): seq<int> {
    if !(0 <= ch.src < Size(g) && 0 <= ch.dst < Size(g)) then []
    else
      match ch.tag
      case TagP => if ch.src == 0 then [Inner(g), g.rows, g.cols] else []
      case TagA =>
        if ch.src == (if Col(g, ch.dst) == 0 then 0 else ch.dst - 1) then RowA(g, Row(g, ch.dst)) else []
      case TagB =>
        if ch.src == (if ch.dst < g.cols then 0 else ch.dst - g.cols) then ColB(g, Col(g, ch.dst)) else []
      case TagC => if ch.dst == 0 then [Entry(g, ch.src)] else []
  }

  // ----- how far a process is -----

  /** The parts of the program in order. */
  function Part(pc: Pc): nat {
    match pc
    case SendParam(_, _) => 0
    case SendA(_, _) => 1
    case SendB(_, _) => 2
    case RecvParam(_) => 3
    case RecvA(_) => 4
    case RecvB(_) => 5
    case SendC => 7
    case Gather(_) => 8
    case Done => 9
    case _ => 6
  }

  function PassedRight(pc: Pc, n: int): int {
    match pc
    case TakeA(i) => i
    case TakeB(i) => i
    case PassRight(i) => i
    case PassDown(i) => i + 1
    case _ => if Part(pc) < 6 then 0 else n
  }

  function PassedDown(pc: Pc, n: int): int {
    match pc
    case TakeA(i) => i
    case TakeB(i) => i
    case PassRight(i) => i
    case PassDown(i) => i
    case _ => if Part(pc) < 6 then 0 else n
  }

  function TookA(pc: Pc, n: int): int {
    match pc
    case TakeA(i) => i
    case TakeB(i) => i + 1
    case PassRight(i) => i + 1
    case PassDown(i) => i + 1
    case _ => if Part(pc) < 6 then 0 else n
  }

  function TookB(pc: Pc, n: int): int {
    match pc
    case TakeA(i) => i
    case TakeB(i) => i
    case PassRight(i) => i + 1
    case PassDown(i) => i + 1
    case _ => if Part(pc) < 6 then 0 else n
  }

  /** How many values the sender at pc has put on the channel. */
  function Sent(g: Input, ch: Channel, pc: Pc): int {
    if Full(g, ch) == [] then 0
    else
      match ch.tag
      case TagP =>
        if pc.SendParam? then (if ch.dst < pc.i then 3 else if ch.dst == pc.i then pc.k else 0) else 3
      case TagA =>
        if Col(g, ch.dst) != 0 then PassedRight(pc, Inner(g))
        else if pc.SendParam? then 0
        else if pc.SendA? then (if Row(g, ch.dst) < pc.i then Inner(g) else if Row(g, ch.dst) == pc.i then pc.j else 0)
        else Inner(g)
      case TagB =>
        if ch.dst >= g.cols then PassedDown(pc, Inner(g))
        else if pc.SendParam? || pc.SendA? then 0
        else if pc.SendB? then (if ch.dst < pc.j then pc.i + 1 else pc.i)
        else Inner(g)
      case TagC => if Part(pc) < 8 then 0 else 1
  }

  /** How many values the receiver at pc has taken from the channel. */
  function Received(g: Input, ch: Channel, pc: Pc): int {
    if Full(g, ch) == [] then 0
    else
      match ch.tag
      case TagP => if pc.RecvParam? then pc.k else if Part(pc) < 3 then 0 else 3
      case TagA =>
        if Col(g, ch.dst) != 0 then TookA(pc, Inner(g))
        else if pc.RecvA? then pc.i else if Part(pc) < 4 then 0 else Inner(g)
      case TagB =>
        if ch.dst >= g.cols then TookB(pc, Inner(g))
        else if pc.RecvB? then pc.i else if Part(pc) < 5 then 0 else Inner(g)
      case TagC => if pc.Gather? then (if ch.src < pc.i then 1 else 0) else if Part(pc) < 9 then 0 else 1
  }

  predicate Known(g: Input, p: Proc) {
    p.n == Inner(g) && p.rows == g.rows && p.cols == g.cols
  }

  /** The vectors a border process received from the control process. */
  predicate Buffers(g: Input, id: int, p: Proc, i: int, j: int) {
    && 0 <= i <= Inner(g) && 0 <= j <= Inner(g)
    && (Col(g, id) == 0 ==> p.vecA == RowA(g, Row(g, id))[..i])
    && (id < g.cols ==> p.vecB == ColB(g, Col(g, id))[..j])
  }

  /** The local variables of process id where it stands. */
  predicate LocalOk(g: Input, id: int, p: Proc) {
    && (Part(p.pc) >= 4 ==> Known(g, p))
    && (Part(p.pc) < 4 ==> p.vecA == p.vecB == [])
    && (Part(p.pc) < 6 ==> p.c == 0) && (Part(p.pc) < 8 ==> p.result == [])
    && match p.pc
       case SendParam(i, k) => id == 0 && i <= Size(g) && k < 3 && (i == Size(g) ==> k == 0)
       case SendA(i, j) => id == 0 && i <= g.rows && j <= Inner(g) && (i == g.rows ==> j == 0)
       case SendB(i, j) => id == 0 && i <= Inner(g) && j <= g.cols && (i == Inner(g) ==> j == 0)
       case RecvParam(k) => k < 3 && (k > 0 ==> p.n == Inner(g)) && (k > 1 ==> p.rows == g.rows)
       case RecvA(i) => Buffers(g, id, p, i, 0) && (Col(g, id) != 0 ==> i == 0)
       case RecvB(i) => Buffers(g, id, p, Inner(g), i) && (id >= g.cols ==> i == 0)
       case TakeA(i) => Buffers(g, id, p, Inner(g), Inner(g)) && i <= Inner(g) && p.c == Dot(g, Row(g, id), Col(g, id), i)
       case TakeB(i) =>
         && Buffers(g, id, p, Inner(g), Inner(g)) && i < Inner(g) && p.c == Dot(g, Row(g, id), Col(g, id), i)
         && p.a == Get(RowA(g, Row(g, id)), i)
       case PassRight(i) =>
         && Buffers(g, id, p, Inner(g), Inner(g)) && i < Inner(g) && p.c == Dot(g, Row(g, id), Col(g, id), i + 1)
         && p.a == Get(RowA(g, Row(g, id)), i) && p.b == Get(ColB(g, Col(g, id)), i)
       case PassDown(i) =>
         && Buffers(g, id, p, Inner(g), Inner(g)) && i < Inner(g) && p.c == Dot(g, Row(g, id), Col(g, id), i + 1)
         && p.b == Get(ColB(g, Col(g, id)), i)
       case SendC => p.c == Entry(g, id)
       case Gather(i) => id == 0 && i <= Size(g) && p.result == Product(g)[..i]
       case Done => id == 0 ==> p.result == Product(g)
  }

  /** A channel holds what was sent and not yet received. */
  ghost predicate ChannelOk(g: Input, s: State, ch: Channel) {
    if 0 <= ch.src < |s.procs| && 0 <= ch.dst < |s.procs| then
      var sent, received := Sent(g, ch, s.procs[ch.src].pc), Received(g, ch, s.procs[ch.dst].pc);
      0 <= received <= sent <= |Full(g, ch)| && Queue(s, ch) == Full(g, ch)[received..sent]
    else Queue(s, ch) == []
  }

  ghost predicate Inv(g: Input, s: State) {
    && |s.procs| == Size(g)
    && (forall id :: 0 <= id < |s.procs| ==> LocalOk(g, id, s.procs[id]))
    && forall ch :: ChannelOk(g, s, ch)
  }

  // ----- arithmetic of the grid -----

  lemma Grid(g: Input, id: int)
    requires Accepted(g) && 0 <= id < Size(g)
    ensures 0 <= Row(g, id) < g.rows && 0 <= Col(g, id) < g.cols && id == Row(g, id) * g.cols + Col(g, id)
    ensures Inner(g) >= 0
  {
    assert id / g.cols < g.rows by {
      if id / g.cols >= g.rows { assert g.cols * (id / g.cols) >= g.cols * g.rows by { Times(g.cols, g.rows, id / g.cols); } }
    }
  }

  lemma Times(c: int, a: int, b: int)
    requires c >= 0 && a <= b
    ensures c * a <= c * b
  {}

  /** Row and column are determined by id == r * cols + c. */
  lemma Unique(g: Input, r: int, c: int)
    requires Accepted(g) && 0 <= r < g.rows && 0 <= c < g.cols
    ensures var id := r * g.cols + c;
      0 <= id < Size(g) && Row(g, id) == r && Col(g, id) == c
  {
    var id := r * g.cols + c;
    Times(g.cols, r + 1, g.rows);
    Times(g.cols, 0, r);
    assert id / g.cols == r && id % g.cols == c by { DivMod(r, c, g.cols); }
  }

  lemma DivMod(q: int, r: int, d: int)
    requires 0 <= r < d
    ensures (q * d + r) / d == q && (q * d + r) % d == r
  {
    var x := q * d + r;
    assert x == d * (x / d) + x % d;
    assert d * (x / d - q) == r - x % d;
    if x / d > q { Times(d, 1, x / d - q); }
    if x / d < q { Times(d, x / d - q, -1); }
  }

  lemma MoveRight(g: Input, id: int)
    requires Accepted(g) && 0 <= id < Size(g)
    ensures RightBorder(id, g.cols) <==> Col(g, id) == g.cols - 1
    ensures !RightBorder(id, g.cols) ==> id + 1 < Size(g) && Row(g, id + 1) == Row(g, id) && Col(g, id + 1) == Col(g, id) + 1
  {
    Grid(g, id);
    var r, c := Row(g, id), Col(g, id);
    if c + 1 < g.cols {
      Unique(g, r, c + 1);
    } else {
      DivMod(r + 1, 0, g.cols);
      assert id + 1 == (r + 1) * g.cols + 0;
    }
  }

  lemma MoveLeft(g: Input, id: int)
    requires Accepted(g) && 0 <= id < Size(g)
    ensures LeftBorder(id, g.cols) <==> Col(g, id) == 0
    ensures !LeftBorder(id, g.cols) ==> id >= 1 && Row(g, id - 1) == Row(g, id) && Col(g, id - 1) == Col(g, id) - 1
  {
    Grid(g, id);
    if Col(g, id) > 0 { Unique(g, Row(g, id), Col(g, id) - 1); }
  }

  lemma MoveUp(g: Input, id: int)
    requires Accepted(g) && 0 <= id < Size(g)
    ensures !TopBorder(id, g.cols) ==> id - g.cols >= 0 && Col(g, id - g.cols) == Col(g, id)
  {
    Grid(g, id);
    var r, c := Row(g, id), Col(g, id);
    assert id - g.cols == (r - 1) * g.cols + c;
    DivMod(r - 1, c, g.cols);
  }

  lemma MoveDown(g: Input, id: int)
    requires Accepted(g) && 0 <= id < Size(g)
    ensures BottomBorder(id, g.rows, g.cols) <==> id + g.cols >= Size(g)
    ensures !BottomBorder(id, g.rows, g.cols) ==> Col(g, id + g.cols) == Col(g, id)
  {
    Grid(g, id);
    var r, c := Row(g, id), Col(g, id);
    assert id + g.cols == (r + 1) * g.cols + c;
    DivMod(r + 1, c, g.cols);
  }

  /** Moving right keeps the row, moving down the column. */
  lemma Neighbours(g: Input, id: int)
    requires Accepted(g) && 0 <= id < Size(g)
    ensures RightBorder(id, g.cols) <==> Col(g, id) == g.cols - 1
    ensures !RightBorder(id, g.cols) ==> id + 1 < Size(g) && Row(g, id + 1) == Row(g, id) && Col(g, id + 1) == Col(g, id) + 1
    ensures LeftBorder(id, g.cols) <==> Col(g, id) == 0
    ensures !LeftBorder(id, g.cols) ==> id >= 1 && Row(g, id - 1) == Row(g, id) && Col(g, id - 1) == Col(g, id) - 1
    ensures !TopBorder(id, g.cols) ==> id - g.cols >= 0 && Col(g, id - g.cols) == Col(g, id)
    ensures BottomBorder(id, g.rows, g.cols) <==> id + g.cols >= Size(g)
    ensures !BottomBorder(id, g.rows, g.cols) ==> Col(g, id + g.cols) == Col(g, id)
  {
    hide Row, Col, RightBorder, LeftBorder, TopBorder, BottomBorder, Size;
    MoveRight(g, id);
    MoveLeft(g, id);
    MoveUp(g, id);
    MoveDown(g, id);
  }

  // ----- one step -----

  lemma OneSide(g: Input, p: Proc, id: nat)
    ensures Source(p, id) == None || Target(g, p, id) == None
  {}

  /** What is sent goes to a process of the mesh, from the process that sends. */
  lemma TargetPlace(g: Input, p: Proc, id: nat)
    requires Accepted(g) && id < Size(g) && LocalOk(g, id, p) && Target(g, p, id).Some?
    ensures var ch := Target(g, p, id).value.0; ch.src == id && 0 <= ch.dst < Size(g)
  {
    hide Row, Col, Dot, RowA, ColB, Buffers, Entry, Product, RightBorder, BottomBorder, GetIndex;
    match p.pc
    case SendA(i, j) => if i < g.rows { Unique(g, i, 0); }
    case SendB(i, j) => Times(g.cols, 1, g.rows);
    case PassRight(_) => MoveRight(g, id);
    case PassDown(_) => MoveDown(g, id);
    case _ =>
  }

  lemma SourcePlace(g: Input, p: Proc, id: nat)
    requires Accepted(g) && id < Size(g) && LocalOk(g, id, p) && Source(p, id).Some?
    ensures var ch := Source(p, id).value;
      ch.dst == id && 0 <= ch.src < Size(g) && Received(g, ch, p.pc) < |Full(g, ch)|
  {
    Neighbours(g, id);
    Grid(g, id);
  }

  ghost predicate SentMore(g: Input, p: Proc, id: nat, v: int, ch: Channel) {
    var m, n := Target(g, p, id), Sent(g, ch, p.pc);
    if m.Some? && m.value.0 == ch then
      0 <= n < |Full(g, ch)| && Full(g, ch)[n] == m.value.1 && Sent(g, ch, After(g, p, id, v).pc) == n + 1
    else Sent(g, ch, After(g, p, id, v).pc) == n
  }

  lemma SentStepP(g: Input, p: Proc, id: nat, v: int, ch: Channel)
    requires Accepted(g) && id < Size(g) && LocalOk(g, id, p) && ch.src == id && 0 <= ch.dst < Size(g) && !p.pc.Done?
    requires ch.tag == TagP
    ensures SentMore(g, p, id, v, ch)
  {
    hide Dot, Product, Entry, Row, Col, Buffers, RowA, ColB, Mod, Div;
  }

  lemma SentStepC(g: Input, p: Proc, id: nat, v: int, ch: Channel)
    requires Accepted(g) && id < Size(g) && LocalOk(g, id, p) && ch.src == id && 0 <= ch.dst < Size(g) && !p.pc.Done?
    requires ch.tag == TagC
    ensures SentMore(g, p, id, v, ch)
  {
    hide Dot, Product, Entry, Row, Col, Buffers, RowA, ColB, Mod, Div;
  }

  lemma ControlSendsA(g: Input, p: Proc, id: nat, v: int, ch: Channel)
    requires Accepted(g) && id < Size(g) && LocalOk(g, id, p) && ch.src == id && 0 <= ch.dst < Size(g) && !p.pc.Done?
    requires ch.tag == TagA && Col(g, ch.dst) == 0
    requires !p.pc.SendA?
    ensures SentMore(g, p, id, v, ch)
  {
    FullLength(g, ch);
    Neighbours(g, id);
    hide RowA, ColB;
    hide Dot, Product, Entry, Row, Col, Buffers, Mod, Div, LeftBorder, RightBorder, TopBorder, BottomBorder, GetIndex, Size;
  }

  lemma SendsA(g: Input, p: Proc, id: nat, v: int, ch: Channel)
    requires Accepted(g) && id < Size(g) && LocalOk(g, id, p) && ch.src == id && 0 <= ch.dst < Size(g) && !p.pc.Done?
    requires ch.tag == TagA && Col(g, ch.dst) == 0
    requires p.pc.SendA?
    ensures SentMore(g, p, id, v, ch)
  {
    Grid(g, id);
    Grid(g, ch.dst);
    if p.pc.i < g.rows { Unique(g, p.pc.i, 0); }
    hide Dot, Product, Entry, Row, Col, Buffers, Mod, Div, LeftBorder, RightBorder, TopBorder, BottomBorder, GetIndex, Size;
  }

  lemma NeighbourSendsA(g: Input, p: Proc, id: nat, v: int, ch: Channel)
    requires Accepted(g) && id < Size(g) && LocalOk(g, id, p) && ch.src == id && 0 <= ch.dst < Size(g) && !p.pc.Done?
    requires ch.tag == TagA && Col(g, ch.dst) != 0
    requires !p.pc.PassRight?
    ensures SentMore(g, p, id, v, ch)
  {
    Grid(g, id);
    if p.pc.SendA? && p.pc.i < g.rows { Unique(g, p.pc.i, 0); }
    FullLength(g, ch);
    hide RowA, ColB;
    hide Dot, Product, Entry, Row, Col, Buffers, Mod, Div, LeftBorder, RightBorder, TopBorder, BottomBorder, GetIndex, Size;
  }

  lemma PassesRight(g: Input, p: Proc, id: nat, v: int, ch: Channel)
    requires Accepted(g) && id < Size(g) && LocalOk(g, id, p) && ch.src == id && 0 <= ch.dst < Size(g) && !p.pc.Done?
    requires ch.tag == TagA && Col(g, ch.dst) != 0
    requires p.pc.PassRight?
    ensures SentMore(g, p, id, v, ch)
  {
    Neighbours(g, id);
    Neighbours(g, ch.dst);
    Grid(g, id);
    FullLength(g, ch);
    hide RowA, ColB;
    hide Dot, Product, Entry, Row, Col, Buffers, Mod, Div, LeftBorder, RightBorder, TopBorder, BottomBorder, GetIndex, Size;
  }

  lemma ControlSendsB(g: Input, p: Proc, id: nat, v: int, ch: Channel)
    requires Accepted(g) && id < Size(g) && LocalOk(g, id, p) && ch.src == id && 0 <= ch.dst < Size(g) && !p.pc.Done?
    requires ch.tag == TagB && ch.dst < g.cols
    ensures SentMore(g, p, id, v, ch)
  {
    Grid(g, id);
    Unique(g, 0, ch.dst);
    hide Dot, Product, Entry, Row, Col, Buffers, Mod, Div, LeftBorder, RightBorder, TopBorder, BottomBorder, GetIndex, Size;
  }

  lemma NeighbourSendsB(g: Input, p: Proc, id: nat, v: int, ch: Channel)
    requires Accepted(g) && id < Size(g) && LocalOk(g, id, p) && ch.src == id && 0 <= ch.dst < Size(g) && !p.pc.Done?
    requires ch.tag == TagB && ch.dst >= g.cols
    requires !p.pc.PassDown?
    ensures SentMore(g, p, id, v, ch)
  {
    Grid(g, id);
    FullLength(g, ch);
    hide RowA, ColB;
    hide Dot, Product, Entry, Row, Col, Buffers, Mod, Div, LeftBorder, RightBorder, TopBorder, BottomBorder, GetIndex, Size;
  }

  lemma PassesDown(g: Input, p: Proc, id: nat, v: int, ch: Channel)
    requires Accepted(g) && id < Size(g) && LocalOk(g, id, p) && ch.src == id && 0 <= ch.dst < Size(g) && !p.pc.Done?
    requires ch.tag == TagB && ch.dst >= g.cols
    requires p.pc.PassDown?
    ensures SentMore(g, p, id, v, ch)
  {
    Neighbours(g, id);
    Neighbours(g, ch.dst);
    Grid(g, id);
    FullLength(g, ch);
    hide RowA, ColB;
    hide Dot, Product, Entry, Row, Col, Buffers, Mod, Div, LeftBorder, RightBorder, TopBorder, BottomBorder, GetIndex, Size;
  }

  /** A step adds exactly its message to what its process has sent, and the message is the next one. */
  lemma SentStep(g: Input, p: Proc, id: nat, v: int, ch: Channel)
    requires Accepted(g) && id < Size(g) && LocalOk(g, id, p) && ch.src == id && 0 <= ch.dst < Size(g) && !p.pc.Done?
    ensures SentMore(g, p, id, v, ch)
  {
    hide SentMore, LocalOk;
    match ch.tag
    case TagA =>
      if p.pc.PassRight? && Col(g, ch.dst) != 0 { PassesRight(g, p, id, v, ch); }
      else if Col(g, ch.dst) != 0 { NeighbourSendsA(g, p, id, v, ch); }
      else if p.pc.SendA? { SendsA(g, p, id, v, ch); }
      else { ControlSendsA(g, p, id, v, ch); }
    case TagB =>
      if ch.dst < g.cols { ControlSendsB(g, p, id, v, ch); }
      else if p.pc.PassDown? { PassesDown(g, p, id, v, ch); }
      else { NeighbourSendsB(g, p, id, v, ch); }
    case TagC => SentStepC(g, p, id, v, ch);
    case TagP => SentStepP(g, p, id, v, ch);
  }

  ghost predicate ReceivedMore(g: Input, p: Proc, id: nat, v: int, ch: Channel) {
    Received(g, ch, After(g, p, id, v).pc) == Received(g, ch, p.pc) + (if Source(p, id) == Some(ch) then 1 else 0)
  }

  lemma ReceivedStepA(g: Input, p: Proc, id: nat, v: int, ch: Channel)
    requires Accepted(g) && id < Size(g) && LocalOk(g, id, p) && ch.dst == id && 0 <= ch.src < Size(g) && !p.pc.Done?
    requires ch.tag == TagA
    ensures ReceivedMore(g, p, id, v, ch)
  {
    Grid(g, id);
    Neighbours(g, id);
    FullLength(g, ch);
    hide Dot, Product, Entry, Row, Col, Mod, Div, LeftBorder, RightBorder, TopBorder, BottomBorder, GetIndex, RowA, ColB;
  }

  lemma ReceivedStepB(g: Input, p: Proc, id: nat, v: int, ch: Channel)
    requires Accepted(g) && id < Size(g) && LocalOk(g, id, p) && ch.dst == id && 0 <= ch.src < Size(g) && !p.pc.Done?
    requires ch.tag == TagB
    ensures ReceivedMore(g, p, id, v, ch)
  {
    Grid(g, id);
    Neighbours(g, id);
    FullLength(g, ch);
    hide Dot, Product, Entry, Row, Col, Mod, Div, LeftBorder, RightBorder, BottomBorder, GetIndex, RowA, ColB;
  }

  lemma ReceivedStepPC(g: Input, p: Proc, id: nat, v: int, ch: Channel)
    requires Accepted(g) && id < Size(g) && LocalOk(g, id, p) && ch.dst == id && 0 <= ch.src < Size(g) && !p.pc.Done?
    requires ch.tag == TagP || ch.tag == TagC
    ensures ReceivedMore(g, p, id, v, ch)
  {
    hide Dot, Product, Entry, Row, Col, Mod, Div, LeftBorder, RightBorder, TopBorder, BottomBorder, GetIndex, RowA, ColB;
  }

  lemma FullLength(g: Input, ch: Channel)
    requires Accepted(g)
    ensures Full(g, ch) != [] ==>
      |Full(g, ch)| == match ch.tag case TagP => 3 case TagC => 1 case _ => Inner(g)
  {}

  lemma ReceivedStep(g: Input, p: Proc, id: nat, v: int, ch: Channel)
    requires Accepted(g) && id < Size(g) && LocalOk(g, id, p) && ch.dst == id && 0 <= ch.src < Size(g) && !p.pc.Done?
    ensures ReceivedMore(g, p, id, v, ch)
  {
    hide ReceivedMore, LocalOk;
    match ch.tag
    case TagA => ReceivedStepA(g, p, id, v, ch);
    case TagB => ReceivedStepB(g, p, id, v, ch);
    case _ => ReceivedStepPC(g, p, id, v, ch);
  }

  /** v is the next message of the channel that process id is about to read, if it is. */
  ghost predicate NextMessage(g: Input, p: Proc, id: nat, v: int) {
    match Source(p, id)
    case None => true
    case Some(ch) => 0 <= Received(g, ch, p.pc) < |Full(g, ch)| && v == Full(g, ch)[Received(g, ch, p.pc)]
  }

  lemma LocalFront(g: Input, p: Proc, id: nat, v: int)
    requires Accepted(g) && id < Size(g) && LocalOk(g, id, p) && NextMessage(g, p, id, v)
    requires Part(p.pc) <= 3
    ensures LocalOk(g, id, After(g, p, id, v))
  {
    hide Dot, Row, Col, Mod, Div, LeftBorder, RightBorder, TopBorder, BottomBorder, GetIndex, RowA, ColB;
    Grid(g, id);
  }

  lemma LocalRecvA(g: Input, p: Proc, id: nat, v: int)
    requires Accepted(g) && id < Size(g) && LocalOk(g, id, p) && NextMessage(g, p, id, v)
    requires p.pc.RecvA?
    ensures LocalOk(g, id, After(g, p, id, v))
  {
    Grid(g, id);
    Neighbours(g, id);
    hide Dot;
    hide Row, Col, Mod, Div, LeftBorder, RightBorder, TopBorder, BottomBorder, GetIndex, Size;
  }

  lemma LocalRecvB(g: Input, p: Proc, id: nat, v: int)
    requires Accepted(g) && id < Size(g) && LocalOk(g, id, p) && NextMessage(g, p, id, v)
    requires p.pc.RecvB?
    ensures LocalOk(g, id, After(g, p, id, v))
  {
    Grid(g, id);
    Neighbours(g, id);
    hide Dot;
    hide Row, Col, Mod, Div, LeftBorder, RightBorder, TopBorder, BottomBorder, GetIndex, Size;
  }

  lemma LocalTakeA(g: Input, p: Proc, id: nat, v: int)
    requires Accepted(g) && id < Size(g) && LocalOk(g, id, p) && NextMessage(g, p, id, v)
    requires p.pc.TakeA?
    ensures LocalOk(g, id, After(g, p, id, v))
  {
    Grid(g, id);
    Neighbours(g, id);
    hide Dot, ColB;
    hide Row, Col, Mod, Div, LeftBorder, RightBorder, TopBorder, BottomBorder, GetIndex, Size;
  }

  lemma LocalTakeB(g: Input, p: Proc, id: nat, v: int)
    requires Accepted(g) && id < Size(g) && LocalOk(g, id, p) && NextMessage(g, p, id, v)
    requires p.pc.TakeB?
    ensures LocalOk(g, id, After(g, p, id, v))
  {
    Grid(g, id);
    Neighbours(g, id);
    hide Row, Col, Mod, Div, LeftBorder, RightBorder, TopBorder, BottomBorder, GetIndex, Size;
  }

  lemma LocalPass(g: Input, p: Proc, id: nat, v: int)
    requires Accepted(g) && id < Size(g) && LocalOk(g, id, p) && NextMessage(g, p, id, v)
    requires p.pc.PassRight? || p.pc.PassDown?
    ensures LocalOk(g, id, After(g, p, id, v))
  {
    Grid(g, id);
    Neighbours(g, id);
    hide Dot, Full;
    hide Row, Col, Mod, Div, LeftBorder, RightBorder, TopBorder, BottomBorder, GetIndex, Size;
  }

  lemma LocalEnd(g: Input, p: Proc, id: nat, v: int)
    requires Accepted(g) && id < Size(g) && LocalOk(g, id, p) && NextMessage(g, p, id, v)
    requires p.pc.SendC? || p.pc.Gather?
    ensures LocalOk(g, id, After(g, p, id, v))
  {
    hide Entry, Dot, Row, Col, Mod, Div, Buffers, RowA, ColB;
    if p.pc.Gather? && p.pc.i < Size(g) {
      ProductNext(g, p.pc.i);
      ResultChannel(g, p.pc.i);
    }
    hide Product, Full;
    WholeProduct(g);
  }

  lemma ProductNext(g: Input, i: nat)
    requires i < Size(g)
    ensures |Product(g)| == Size(g) && Product(g)[..i + 1] == Product(g)[..i] + [Entry(g, i)]
  {
    hide Entry;
  }

  lemma ResultChannel(g: Input, i: nat)
    requires i < Size(g)
    ensures Full(g, Channel(i, 0, TagC)) == [Entry(g, i)]
  {
    hide Entry;
  }

  lemma WholeProduct(g: Input)
    requires Size(g) >= 0
    ensures |Product(g)| == Size(g) && Product(g)[..Size(g)] == Product(g) && Product(g)[..0] == []
  {
    hide Entry;
  }

  /** The local variables stay right if the message received is the next one of its channel. */
  lemma LocalStep(g: Input, p: Proc, id: nat, v: int)
    requires Accepted(g) && id < Size(g) && LocalOk(g, id, p) && NextMessage(g, p, id, v) && !p.pc.Done?
    ensures LocalOk(g, id, After(g, p, id, v))
  {
    hide LocalOk, NextMessage, After;
    match p.pc
    case RecvA(_) => LocalRecvA(g, p, id, v);
    case RecvB(_) => LocalRecvB(g, p, id, v);
    case TakeA(_) => LocalTakeA(g, p, id, v);
    case TakeB(_) => LocalTakeB(g, p, id, v);
    case PassRight(_) => LocalPass(g, p, id, v);
    case PassDown(_) => LocalPass(g, p, id, v);
    case SendC => LocalEnd(g, p, id, v);
    case Gather(_) => LocalEnd(g, p, id, v);
    case _ => LocalFront(g, p, id, v);
  }

  /** How one step of process id changes the queue of a channel. */
  lemma QueueStep(g: Input, s: State, id: nat, ch: Channel)
    requires Enabled(s, id)
    ensures var p := s.procs[id];
      var s', m := Next(g, s, id), Target(g, p, id);
      Queue(s', ch) == (if Source(p, id) == Some(ch) then Queue(s, ch)[1..] else Queue(s, ch))
                       + (if m.Some? && m.value.0 == ch then [m.value.1] else [])
  {
    hide Source, Target, After, Message;
    var p := s.procs[id];
    HeldAfter(s.queues, Source(p, id), Target(g, p, id), ch);
    hide Held, Push, Pop;
  }

  lemma StepCounts(g: Input, s: State, id: nat, ch: Channel)
    requires Accepted(g) && Inv(g, s) && Enabled(s, id) && 0 <= ch.src < |s.procs| && 0 <= ch.dst < |s.procs|
    ensures var s', m, n := Next(g, s, id), Target(g, s.procs[id], id), Sent(g, ch, s.procs[ch.src].pc);
      var given := m.Some? && m.value.0 == ch;
      && |s'.procs| == |s.procs|
      && (given ==> 0 <= n < |Full(g, ch)| && Full(g, ch)[n] == m.value.1)
      && Sent(g, ch, s'.procs[ch.src].pc) == n + (if given then 1 else 0)
      && Received(g, ch, s'.procs[ch.dst].pc) ==
         Received(g, ch, s.procs[ch.dst].pc) + (if Source(s.procs[id], id) == Some(ch) then 1 else 0)
  {
    var p, v := s.procs[id], Message(s, id);
    assert Next(g, s, id).procs == s.procs[id := After(g, p, id, v)];
    assert LocalOk(g, id, p);
    hide Source, Target, After, Message, LocalOk, Sent, Received, Full, Next, Inv, Enabled;
    if Target(g, p, id).Some? { TargetPlace(g, p, id); }
    if Source(p, id).Some? { SourcePlace(g, p, id); }
    if ch.src == id { SentStep(g, p, id, v, ch); }
    if ch.dst == id { ReceivedStep(g, p, id, v, ch); }
  }

  lemma StepFacts(g: Input, s: State, id: nat, ch: Channel)
    requires Inv(g, s) && Enabled(s, id)
    ensures |Next(g, s, id).procs| == |s.procs| == Size(g)
    ensures LocalOk(g, id, s.procs[id]) && ChannelOk(g, s, ch)
    ensures Source(s.procs[id], id) == Some(ch) ==> Queue(s, ch) != []
  {
    hide LocalOk, ChannelOk, Source, Target, After, Message, Queue;
  }

  lemma ChannelStep(g: Input, s: State, id: nat, ch: Channel)
    requires Accepted(g) && Inv(g, s) && Enabled(s, id)
    ensures ChannelOk(g, Next(g, s, id), ch)
  {
    hide Source, Target, LocalOk, Sent, Received, Full, Next, Queue, Inv, Enabled, Accepted;
    EnabledIndex(s, id);
    var s', p := Next(g, s, id), s.procs[id];
    var m := Target(g, p, id);
    StepFacts(g, s, id, ch);
    QueueStep(g, s, id, ch);
    OneSide(g, p, id);
    var taken, given := Source(p, id) == Some(ch), m.Some? && m.value.0 == ch;
    if 0 <= ch.src < |s.procs| && 0 <= ch.dst < |s.procs| {
      StepCounts(g, s, id, ch);
      SliceStep(Full(g, ch), Received(g, ch, s.procs[ch.dst].pc), Sent(g, ch, s.procs[ch.src].pc), taken, given,
        if m.Some? then m.value.1 else 0, Queue(s, ch), Queue(s', ch));
    } else {
      if m.Some? { TargetPlace(g, p, id); }
      if Source(p, id).Some? { SourcePlace(g, p, id); }
    }
  }

  lemma EnabledIndex(s: State, id: nat)
    requires Enabled(s, id)
    ensures id < |s.procs|
  {}

  lemma MessageRight(g: Input, s: State, id: nat)
    requires Accepted(g) && Inv(g, s) && Enabled(s, id)
    ensures NextMessage(g, s.procs[id], id, Message(s, id))
  {
    hide LocalOk, Sent, Received, Full;
    var p := s.procs[id];
    match Source(p, id)
    case None =>
    case Some(ch) =>
      SourcePlace(g, p, id);
      assert ChannelOk(g, s, ch);
  }

  /** Every step of every process keeps the invariant. */
  lemma StepInv(g: Input, s: State, id: nat)
    requires Accepted(g) && Inv(g, s) && Enabled(s, id)
    ensures Inv(g, Next(g, s, id))
  {
    var s' := Next(g, s, id);
    assert s'.procs == s.procs[id := After(g, s.procs[id], id, Message(s, id))];
    MessageRight(g, s, id);
    LocalStep(g, s.procs[id], id, Message(s, id));
    hide LocalOk, ChannelOk, Next, Enabled, After, Message;
    forall ch
      ensures ChannelOk(g, s', ch)
    {
      ChannelStep(g, s, id, ch);
    }
  }

  lemma InitInv(g: Input)
    requires Accepted(g)
    ensures Inv(g, Init(g))
  {
    Times(g.cols, 1, g.rows);
    var s := Init(g);
    forall ch
      ensures ChannelOk(g, s, ch)
    {
      if 0 <= ch.src < |s.procs| && 0 <= ch.dst < |s.procs| { Grid(g, ch.dst); }
    }
  }

  lemma {:induction false} RunInv(g: Input, schedule: seq<nat>)
    requires Accepted(g) && Run(g, schedule).Some?
    ensures Inv(g, Run(g, schedule).value)
  {
    hide Inv, Next, Enabled;
    if schedule == [] {
      InitInv(g);
    } else {
      RunInv(g, schedule[..|schedule| - 1]);
      StepInv(g, Run(g, schedule[..|schedule| - 1]).value, schedule[|schedule| - 1]);
    }
  }

  // ----- no deadlock -----

  lemma FullAt(g: Input, id: int)
    requires Accepted(g) && 0 <= id < Size(g)
    ensures |Full(g, Channel(0, id, TagP))| == 3
    ensures LeftBorder(id, g.cols) ==> |Full(g, Channel(0, id, TagA))| == Inner(g)
    ensures !LeftBorder(id, g.cols) ==> |Full(g, Channel(id - 1, id, TagA))| == Inner(g) && 1 <= id
    ensures TopBorder(id, g.cols) ==> |Full(g, Channel(0, id, TagB))| == Inner(g)
    ensures !TopBorder(id, g.cols) ==> |Full(g, Channel(id - g.cols, id, TagB))| == Inner(g) && g.cols <= id
    ensures |Full(g, Channel(id, 0, TagC))| == 1
  {
    Grid(g, id);
    MoveLeft(g, id);
    MoveUp(g, id);
  }

  /** The control process has sent everything that other processes expect before their loop. */
  lemma FrontSent(g: Input, p: Proc, id: nat, ch: Channel, control: Pc)
    requires Accepted(g) && id < Size(g) && LocalOk(g, id, p) && Source(p, id) == Some(ch)
    requires 3 <= Part(p.pc) < 6 && Part(control) >= 3
    ensures ch.src == 0 && Received(g, ch, p.pc) < Sent(g, ch, control)
  {
    FullAt(g, id);
    MoveLeft(g, id);
    hide Full, RowA, ColB, Buffers, Row, Dot, Entry, Product;
  }

  /** A neighbour that has left its loop has passed on everything. */
  lemma LoopSent(g: Input, p: Proc, id: nat, ch: Channel, neighbour: Pc)
    requires Accepted(g) && id < Size(g) && LocalOk(g, id, p) && Source(p, id) == Some(ch)
    requires Part(p.pc) == 6 && Part(neighbour) >= 7
    ensures 0 <= ch.src < id && Received(g, ch, p.pc) < Sent(g, ch, neighbour)
  {
    FullAt(g, id);
    MoveLeft(g, id);
    hide Full, RowA, ColB, Buffers, Row, Dot, Entry, Product;
  }

  lemma ResultSent(g: Input, p: Proc, id: nat, ch: Channel, other: Pc)
    requires Accepted(g) && id < Size(g) && LocalOk(g, id, p) && Source(p, id) == Some(ch)
    requires Part(p.pc) == 8 && Part(other) >= 8
    ensures 0 <= ch.src < Size(g) && Received(g, ch, p.pc) < Sent(g, ch, other)
  {
    FullAt(g, p.pc.i);
    hide Full, RowA, ColB, Buffers, Row, Dot, Entry, Product;
  }

  lemma Ready(g: Input, s: State, id: nat)
    requires Inv(g, s) && id < |s.procs| && !s.procs[id].pc.Done?
    requires match Source(s.procs[id], id)
      case None => true
      case Some(ch) =>
        && ch.dst == id && 0 <= ch.src < |s.procs|
        && Received(g, ch, s.procs[id].pc) < Sent(g, ch, s.procs[ch.src].pc)
    ensures Enabled(s, id)
  {
    hide Source, Sent, Received, Full, LocalOk;
    match Source(s.procs[id], id)
    case None =>
    case Some(ch) => assert ChannelOk(g, s, ch);
  }

  lemma ControlSends(g: Input, s: State)
    requires Accepted(g) && Inv(g, s) && 0 < |s.procs| && Part(s.procs[0].pc) < 3
    ensures Enabled(s, 0)
  {
    hide Inv;
  }

  lemma OnlyControl(g: Input, id: nat, p: Proc)
    requires LocalOk(g, id, p) && (Part(p.pc) < 3 || p.pc.Gather?)
    ensures id == 0
  {}

  /** Where nobody can step, every process is past its loop: by induction over the mesh. */
  lemma {:induction false} StuckPastLoop(g: Input, s: State, id: nat)
    requires Accepted(g) && Inv(g, s) && Stuck(s) && id < Size(g)
    ensures Part(s.procs[id].pc) >= 7
    decreases id
  {
    hide LocalOk, ChannelOk, Enabled, Source, Sent, Received, Accepted;
    var p := s.procs[id];
    if Part(s.procs[0].pc) < 3 { ControlSends(g, s); }
    if Part(p.pc) < 3 {
      OnlyControl(g, id, p);
    } else if Part(p.pc) < 7 {
      if Source(p, id).Some? {
        var ch := Source(p, id).value;
        SourcePlace(g, p, id);
        if Part(p.pc) < 6 {
          FrontSent(g, p, id, ch, s.procs[0].pc);
        } else {
          SourceSmaller(g, p, id, ch);
          StuckPastLoop(g, s, ch.src);
          LoopSent(g, p, id, ch, s.procs[ch.src].pc);
        }
      }
      Ready(g, s, id);
    }
  }

  lemma SourceSmaller(g: Input, p: Proc, id: nat, ch: Channel)
    requires Accepted(g) && id < Size(g) && LocalOk(g, id, p) && Source(p, id) == Some(ch) && Part(p.pc) == 6
    ensures 0 <= ch.src < id
  {
    LoopSent(g, p, id, ch, Done);
  }

  /** No deadlock: where nobody can step, everybody is done. */
  lemma StuckDone(g: Input, s: State, id: nat)
    requires Accepted(g) && Inv(g, s) && Stuck(s) && id < Size(g)
    ensures s.procs[id].pc.Done?
  {
    hide LocalOk, ChannelOk, Enabled, Source, Sent, Received, Accepted;
    var p := s.procs[id];
    StuckPastLoop(g, s, id);
    if !p.pc.Done? {
      if Source(p, id).Some? {
        var ch := Source(p, id).value;
        SourcePlace(g, p, id);
        SendCFree(p, id);
        StuckSent(g, s, ch.src);
        ResultSent(g, p, id, ch, s.procs[ch.src].pc);
      }
      Ready(g, s, id);
    }
  }

  lemma SendCFree(p: Proc, id: nat)
    ensures p.pc.SendC? ==> Source(p, id) == None
  {}

  lemma StuckSent(g: Input, s: State, id: nat)
    requires Accepted(g) && Inv(g, s) && Stuck(s) && id < Size(g)
    ensures Part(s.procs[id].pc) >= 8
  {
    hide LocalOk, ChannelOk, Enabled, Source, Sent, Received, Accepted;
    StuckPastLoop(g, s, id);
    if s.procs[id].pc.SendC? {
      SendCFree(s.procs[id], id);
      Ready(g, s, id);
    }
  }

  /** In every interleaving in which no process can go on, all are done and process 0 has collected all entries. */
  lemma ProductReached(g: Input, schedule: seq<nat>)
    requires Accepted(g) && Run(g, schedule).Some? && Stuck(Run(g, schedule).value)
    ensures var s := Run(g, schedule).value;
      && |s.procs| == Size(g) > 0 && (forall id :: 0 <= id < |s.procs| ==> s.procs[id].pc.Done?)
      && s.procs[0].result == Product(g)
  {
    hide ChannelOk, Enabled, Source, Sent, Received, Stuck, Run;
    var s := Run(g, schedule).value;
    RunInv(g, schedule);
    Times(g.cols, 1, g.rows);
    forall id | 0 <= id < |s.procs|
      ensures s.procs[id].pc.Done?
    {
      StuckDone(g, s, id);
    }
    assert LocalOk(g, 0, s.procs[0]);
  }

  // ----- every interleaving ends -----

  /** The most steps a process at pc can still take. */
  function Rank(g: Input, pc: Pc): int {
    var n, size := Inner(g), Size(g);
    match pc
    case Done => 0
    case Gather(i) => 1 + size - i
    case SendC => size + 2
    case TakeA(i) => size + 3 + 4 * (n - i)
    case TakeB(i) => size + 2 + 4 * (n - i)
    case PassRight(i) => size + 1 + 4 * (n - i)
    case PassDown(i) => size + 4 * (n - i)
    case RecvB(i) => size + 4 + 4 * n + (n - i)
    case RecvA(i) => size + 5 + 5 * n + (n - i)
    case RecvParam(k) => size + 6 + 6 * n + (3 - k)
    case SendB(i, j) => size + 10 + 6 * n + Nested(n, g.cols, i, j)
    case SendA(i, j) => size + 11 + 6 * n + Nested(n, g.cols, 0, 0) + Nested(g.rows, n, i, j)
    case SendParam(i, k) =>
      size + 12 + 6 * n + Nested(n, g.cols, 0, 0) + Nested(g.rows, n, 0, 0) + 3 * (size - i) + (3 - k)
  }

  /** Steps left of two nested loops to a and b, with one more step for each end of the inner loop. */
  function Nested(a: int, b: int, i: int, j: int): int {
    (a - i) * (b + 1) + (b - j)
  }

  lemma NestedFalls(a: int, b: int, i: int, j: int)
    ensures Nested(a, b, i, j + 1) == Nested(a, b, i, j) - 1
    ensures j == b ==> Nested(a, b, i + 1, 0) == Nested(a, b, i, j) - 1
    ensures i <= a && j <= b && b >= 0 ==> Nested(a, b, i, j) >= 0
  {
    if i <= a && b >= 0 { Times(b + 1, 0, a - i); }
  }

  lemma ControlRankFalls(g: Input, p: Proc, id: nat, v: int)
    requires Accepted(g) && id < Size(g) && LocalOk(g, id, p) && Part(p.pc) < 3
    ensures 0 <= Rank(g, After(g, p, id, v).pc) < Rank(g, p.pc)
  {
    Grid(g, id);
    var n := Inner(g);
    NestedFalls(n, g.cols, 0, 0);
    NestedFalls(g.rows, n, 0, 0);
    match p.pc {
      case SendA(i, j) => NestedFalls(g.rows, n, i, j); NestedFalls(g.rows, n, i, j + 1); NestedFalls(g.rows, n, i + 1, 0);
      case SendB(i, j) => NestedFalls(n, g.cols, i, j); NestedFalls(n, g.cols, i, j + 1); NestedFalls(n, g.cols, i + 1, 0);
      case _ =>
    }
    hide Nested, Dot, Entry, Product, Row, Col;
  }

  lemma RankFalls(g: Input, p: Proc, id: nat, v: int)
    requires Accepted(g) && id < Size(g) && LocalOk(g, id, p) && !p.pc.Done?
    ensures 0 <= Rank(g, After(g, p, id, v).pc) < Rank(g, p.pc)
  {
    Grid(g, id);
    if Part(p.pc) < 3 {
      hide LocalOk, Rank, After;
      ControlRankFalls(g, p, id, v);
    } else {
      hide Nested, Dot, Entry, Product, RowA, ColB, LeftBorder, TopBorder, RightBorder, BottomBorder, Row, Col;
    }
  }

  function Ranks(g: Input, ps: seq<Proc>): seq<int> {
    seq(|ps|, i requires 0 <= i < |ps| => Rank(g, ps[i].pc))
  }

  lemma RankNonnegative(g: Input, p: Proc, id: nat)
    requires Accepted(g) && id < Size(g) && LocalOk(g, id, p)
    ensures Rank(g, p.pc) >= 0
  {
    hide LocalOk;
    if p.pc.Done? {
    } else {
      RankFalls(g, p, id, 0);
    }
  }

  lemma {:induction false} StepsAreBounded(g: Input, schedule: seq<nat>)
    requires Accepted(g) && Run(g, schedule).Some?
    ensures |schedule| + Sum(Ranks(g, Run(g, schedule).value.procs)) <= Sum(Ranks(g, Init(g).procs))
  {
    hide LocalOk, Rank, Init, ChannelOk;
    if schedule != [] {
      var before := schedule[..|schedule| - 1];
      var r, s := Run(g, before).value, Run(g, schedule).value;
      var id := schedule[|schedule| - 1];
      StepsAreBounded(g, before);
      RunInv(g, before);
      RankFalls(g, r.procs[id], id, Message(r, id));
      SumUpdate(Ranks(g, r.procs), id, Rank(g, s.procs[id].pc));
      assert Ranks(g, s.procs) == Ranks(g, r.procs)[id := Rank(g, s.procs[id].pc)];
    }
  }

  /** The steps of all processes: what every process does in its loop, the results, and what process 0
      sends and collects. */
  function Bound(g: Input): int {
    var n, size := Inner(g), Size(g);
    size * (size + 6 * n + 9) + 3 * size + n * (g.cols + 1) + g.cols + g.rows * (n + 1) + n + 6
  }

  lemma {:induction false} SumStart(xs: seq<int>, c: int)
    requires |xs| > 0 && forall i :: 1 <= i < |xs| ==> xs[i] == c
    ensures Sum(xs) == xs[0] + (|xs| - 1) * c
  {
    SumConstant(xs[1..], c);
  }

  lemma StartRanks(g: Input)
    requires Accepted(g)
    ensures Sum(Ranks(g, Init(g).procs)) == Bound(g)
  {
    Times(g.cols, 1, g.rows);
    var n, size := Inner(g), Size(g);
    var xs := Ranks(g, Init(g).procs);
    assert |xs| == size;
    assert forall i :: 1 <= i < |xs| ==> xs[i] == size + 6 * n + 9;
    SumStart(xs, size + 6 * n + 9);
    assert xs[0] == Rank(g, SendParam(0, 0));
    Spread(size, size + 6 * n + 9);
  }

  lemma Spread(size: int, c: int)
    ensures (size - 1) * c + c == size * c
  {}

  /** Termination: no interleaving has more steps than this. */
  lemma Terminates(g: Input, schedule: seq<nat>)
    requires Accepted(g) && Run(g, schedule).Some?
    ensures |schedule| <= Bound(g)
  {
    hide LocalOk, Rank, Init, ChannelOk, Run, Bound;
    StepsAreBounded(g, schedule);
    StartRanks(g);
    RunInv(g, schedule);
    var s := Run(g, schedule).value;
    forall i | 0 <= i < |s.procs|
      ensures Rank(g, s.procs[i].pc) >= 0
    {
      RankNonnegative(g, s.procs[i], i);
    }
    SumNonnegative(Ranks(g, s.procs));
  }
}
