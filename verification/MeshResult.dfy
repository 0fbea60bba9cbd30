/** What the mesh computes, in terms of the two lists of numbers it read. */
module MeshResult {
  import opened Wrappers
  import opened Fifo
  import opened Mesh
  import opened MeshProduct
  import opened Matrices

  /** The program goes on exactly if both dimensions are positive and the two quotients that give the inner
      dimension agree. */
  lemma AcceptedExactly(g: Input)
    ensures Accepted(g) <==> g.rows > 0 && g.cols > 0 && |g.mat1| / g.rows == |g.mat2| / g.cols
    ensures g.rows > 0 ==> Inner(g) == |g.mat1| / g.rows
  {}

  /** The lists are long enough for the matrices the program makes of them. */
  lemma Sizes(g: Input)
    requires Accepted(g)
    ensures Inner(g) >= 0 && g.rows * Inner(g) <= |g.mat1| && Inner(g) * g.cols <= |g.mat2|
  {}

  lemma RowFits(g: Input, r: nat)
    requires Accepted(g) && r < g.rows
    ensures Inner(g) >= 0 && (r + 1) * Inner(g) <= |g.mat1|
  {
    Sizes(g);
    MulMono(r + 1, g.rows, Inner(g));
  }

  lemma RowElement(g: Input, r: nat, k: nat)
    requires Accepted(g) && r < g.rows && k < Inner(g)
    ensures r * Inner(g) + k < |g.mat1| && Get(RowA(g, r), k) == g.mat1[r * Inner(g) + k]
  {
    RowFits(g, r);
    InRange(Inner(g), g.cols, r, 0, k);
  }

  lemma ColumnElement(g: Input, c: nat, k: nat)
    requires Accepted(g) && c < g.cols && k < Inner(g)
    ensures k * g.cols + c < |g.mat2| && Get(ColB(g, c), k) == g.mat2[k * g.cols + c]
  {
    Sizes(g);
    InRange(Inner(g), g.cols, 0, c, k);
  }

  lemma {:induction false} DotIsCell(g: Input, r: nat, c: nat, k: nat)
    requires Accepted(g) && r < g.rows && c < g.cols && k <= Inner(g)
    ensures (r + 1) * Inner(g) <= |g.mat1| && Inner(g) * g.cols <= |g.mat2|
    ensures Dot(g, r, c, k) == Cell(g.mat1, g.mat2, Inner(g), g.cols, r, c, k)
  {
    hide RowA, ColB, Get;
    Sizes(g);
    RowFits(g, r);
    if k > 0 {
      DotIsCell(g, r, c, k - 1);
      RowElement(g, r, k - 1);
      ColumnElement(g, c, k - 1);
    }
  }

  lemma ProductEntry(g: Input, r: nat, c: nat)
    requires Accepted(g) && r < g.rows && c < g.cols
    ensures Inner(g) >= 0 && Inner(g) * g.cols <= |g.mat2|
    ensures IsEntry(g.mat1, g.mat2, Inner(g), g.cols, Product(g), r, c)
  {
    hide Dot, Entry, Row, Col, Cell, Accepted, Inner;
    RowFits(g, r);
    Unique(g, r, c);
    DotIsCell(g, r, c, Inner(g));
    EntryIs(g, r * g.cols + c);
  }

  lemma ProductFound(g: Input, m: seq<int>)
    requires Accepted(g) && m == Product(g)
    ensures Inner(g) >= 0 && Inner(g) * g.cols <= |g.mat2|
    ensures IsProduct(g.mat1, g.mat2, g.rows, Inner(g), g.cols, m)
  {
    Sizes(g);
    ProductSize(g);
    hide Entry, Inner, Product, IsEntry;
    forall r: nat, c: nat | r < g.rows && c < g.cols
      ensures IsEntry(g.mat1, g.mat2, Inner(g), g.cols, m, r, c)
    {
      ProductEntry(g, r, c);
    }
  }

  lemma ProductSize(g: Input)
    requires Accepted(g)
    ensures |Product(g)| == g.rows * g.cols
  {
    Times(g.cols, 0, g.rows);
  }

  /** In every interleaving in which no process can go on, all are done and process 0 has the product: entry
      r * cols + c of its result is the sum over k of mat1[r * n + k] * mat2[k * cols + c]. */
  lemma ProductComputed(g: Input, schedule: seq<nat>)
    requires Accepted(g) && Run(g, schedule).Some? && Stuck(Run(g, schedule).value)
    ensures g.rows > 0 && g.cols > 0 && |g.mat1| / g.rows == |g.mat2| / g.cols
    ensures |g.mat1| / g.rows * g.cols <= |g.mat2|
    ensures var s := Run(g, schedule).value;
      && |s.procs| == g.rows * g.cols > 0 && (forall id :: 0 <= id < |s.procs| ==> s.procs[id].pc.Done?)
      && IsProduct(g.mat1, g.mat2, g.rows, |g.mat1| / g.rows, g.cols, s.procs[0].result)
  {
    hide Run, Stuck, IsProduct, Accepted, Inner, Product;
    ProductReached(g, schedule);
    ProductFound(g, Run(g, schedule).value.procs[0].result);
    AcceptedExactly(g);
  }

  lemma EntryIs(g: Input, id: nat)
    requires Inner(g) >= 0
    ensures Entry(g, id) == Dot(g, Row(g, id), Col(g, id), Inner(g))
  {}

  lemma IdentityEntry(g: Input, m: seq<int>, i: nat)
    requires Accepted(g) && Inner(g) == g.rows && Inner(g) * g.cols <= |g.mat2|
    requires IsProduct(g.mat1, g.mat2, g.rows, g.rows, g.cols, m) && i < |m|
    requires forall r: nat :: r < g.rows ==> IsUnit(g.mat1, g.rows, r)
    ensures i < |g.mat2| && m[i] == g.mat2[i]
  {
    hide IsUnit, Cell, Accepted, Inner;
    Grid(g, i);
    var r, c := Row(g, i), Col(g, i);
    hide Row, Col;
    assert IsEntry(g.mat1, g.mat2, g.rows, g.cols, m, r, c);
    IdentityTimes(g.mat1, g.mat2, g.rows, g.cols, r, c, g.rows);
  }

  /** Whatever the interleaving, multiplying by the identity gives back the other matrix. */
  lemma IdentityComputed(g: Input, schedule: seq<nat>)
    requires Accepted(g) && Run(g, schedule).Some? && Stuck(Run(g, schedule).value)
    requires Inner(g) == g.rows && g.rows * g.cols == |g.mat2|
    requires forall r: nat :: r < g.rows ==> IsUnit(g.mat1, g.rows, r)
    ensures |Run(g, schedule).value.procs| > 0 && Run(g, schedule).value.procs[0].result == g.mat2
  {
    hide Run, Stuck, IsUnit, Product, Accepted, IsEntry, Inner;
    ProductReached(g, schedule);
    var m := Run(g, schedule).value.procs[0].result;
    ProductFound(g, m);
    ProductSize(g);
    forall i | 0 <= i < |m|
      ensures m[i] == g.mat2[i]
    {
      IdentityEntry(g, m, i);
    }
  }

  // ----- what the channels carry -----

  lemma TakenFromLeft(g: Input, s: State, id: nat)
    requires Accepted(g) && Inv(g, s) && id < Size(g) && !LeftBorder(id, g.cols)
    ensures id < |s.procs|
    ensures var ch, k := Channel(id - 1, id, TagA), s.procs[id].pc;
      k.TakeA? && Queue(s, ch) != [] ==> k.i < Inner(g) && Queue(s, ch)[0] == Get(RowA(g, Row(g, id)), k.i)
  {
    hide Queue, Dot, Sent, LocalOk, RowA, Stuck;
    MoveLeft(g, id);
    assert ChannelOk(g, s, Channel(id - 1, id, TagA));
    RowSize(g, Row(g, id));
    hide Inv, Row, Col, LeftBorder;
  }

  lemma RowSize(g: Input, r: int)
    requires Accepted(g)
    ensures |RowA(g, r)| == Inner(g) && |ColB(g, r)| == Inner(g)
  {}

  lemma TakenFromAbove(g: Input, s: State, id: nat)
    requires Accepted(g) && Inv(g, s) && id < Size(g) && !TopBorder(id, g.cols)
    ensures g.cols <= id < |s.procs|
    ensures var ch, k := Channel(id - g.cols, id, TagB), s.procs[id].pc;
      k.TakeB? && Queue(s, ch) != [] ==> k.i < Inner(g) && Queue(s, ch)[0] == Get(ColB(g, Col(g, id)), k.i)
  {
    hide Queue, Dot, Sent, LocalOk, ColB, Stuck;
    MoveUp(g, id);
    assert ChannelOk(g, s, Channel(id - g.cols, id, TagB));
    RowSize(g, Col(g, id));
    hide Inv, Row, Col;
  }

  /** The next value that comes to process id from the left is the element of row r of the first matrix that its
      loop is at. */
  ghost predicate CarriesRow(g: Input, s: State, r: nat, id: nat)
    requires id < |s.procs|
  {
    var ch, k := Channel(id - 1, id, TagA), s.procs[id].pc;
    k.TakeA? && Queue(s, ch) != [] ==>
      0 <= r * Inner(g) + k.i < |g.mat1| && Queue(s, ch)[0] == g.mat1[r * Inner(g) + k.i]
  }

  /** The next value that comes to process id from above is the element of column c of the second matrix that its
      loop is at. */
  ghost predicate CarriesColumn(g: Input, s: State, c: nat, id: nat)
    requires id < |s.procs|
  {
    var ch, k := Channel(id - g.cols, id, TagB), s.procs[id].pc;
    k.TakeB? && Queue(s, ch) != [] ==>
      0 <= k.i * g.cols + c < |g.mat2| && Queue(s, ch)[0] == g.mat2[k.i * g.cols + c]
  }

  lemma RowTaken(g: Input, s: State, r: nat, id: nat)
    requires Accepted(g) && Inv(g, s) && id < Size(g) && !LeftBorder(id, g.cols) && Row(g, id) == r < g.rows
    ensures id < |s.procs| && CarriesRow(g, s, r, id)
  {
    hide Queue, Inv, Row, RowA, Accepted, Inner, LeftBorder, Get, Size;
    TakenFromLeft(g, s, id);
    if s.procs[id].pc.TakeA? && s.procs[id].pc.i < Inner(g) { RowElement(g, r, s.procs[id].pc.i); }
  }

  lemma ColumnTaken(g: Input, s: State, c: nat, id: nat)
    requires Accepted(g) && Inv(g, s) && id < Size(g) && !TopBorder(id, g.cols) && Col(g, id) == c < g.cols
    ensures id < |s.procs| && CarriesColumn(g, s, c, id)
  {
    hide Queue, Inv, Col, ColB, Accepted, Inner, Get, Size, TopBorder;
    TakenFromAbove(g, s, id);
    if s.procs[id].pc.TakeB? && s.procs[id].pc.i < Inner(g) { ColumnElement(g, c, s.procs[id].pc.i); }
  }

  /** Along row r every process right of the left border gets row r of the first matrix, in order. */
  lemma RowsCarried(g: Input, schedule: seq<nat>, r: nat, c: nat)
    requires Accepted(g) && Run(g, schedule).Some? && r < g.rows && 0 < c < g.cols
    ensures r * g.cols + c < |Run(g, schedule).value.procs|
    ensures CarriesRow(g, Run(g, schedule).value, r, r * g.cols + c)
  {
    hide Run, Inv, Row, Col, LeftBorder, CarriesRow, Accepted;
    var id := r * g.cols + c;
    RunInv(g, schedule);
    Unique(g, r, c);
    MoveLeft(g, id);
    RowTaken(g, Run(g, schedule).value, r, id);
  }

  /** Down column c every process below the top border gets column c of the second matrix, in order. */
  lemma ColumnsCarried(g: Input, schedule: seq<nat>, r: nat, c: nat)
    requires Accepted(g) && Run(g, schedule).Some? && 0 < r < g.rows && c < g.cols
    ensures g.cols <= r * g.cols + c < |Run(g, schedule).value.procs|
    ensures CarriesColumn(g, Run(g, schedule).value, c, r * g.cols + c)
  {
    hide Run, Inv, Row, Col, CarriesColumn, Accepted;
    var id := r * g.cols + c;
    RunInv(g, schedule);
    Unique(g, r, c);
    MulMono(1, r, g.cols);
    ColumnTaken(g, Run(g, schedule).value, c, id);
  }
}
