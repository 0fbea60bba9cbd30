/** Every interleaving of the enumeration sort routes one number to each process, never gets stuck, and
    leaves the master with the numbers in stable ascending order. */
module EnumerationSort {
  import opened Wrappers
  import opened Fifo
  import opened Enumeration
  import opened Ranks

  // ----- what the channels carry -----

  /** The results that process id sends on: its own, then those of the processes before it. */
  ghost function Results(xs: seq<int>, id: int): seq<int> {
    seq(if id < 0 then 0 else id, k => Ranked(xs, id - k))
  }

  /** Everything that is ever sent on a channel. */
  ghost function Full(xs: seq<int>, ch: Channel): seq<int> {
    match ch.tag
    case TagX => if ch.src == 0 && 1 <= ch.dst <= |xs| then [xs[ch.dst - 1]] else []
    case TagY => if ch.src == ch.dst - 1 && 1 <= ch.dst <= |xs| then xs else []
    case TagZ => if 1 <= ch.src <= |xs| && 1 <= ch.dst <= |xs| && Rank(xs, ch.src) == ch.dst then [xs[ch.src - 1]] else []
    case TagO => if 1 <= ch.src <= |xs| && ch.dst == Receiver(ch.src, |xs|) then Results(xs, ch.src) else []
  }

  /** The parts of the two programs in order. */
  function Part(pc: Pc): nat {
    match pc
    case SendX(_) => 0
    case SendY(_) => 0
    case Collect(_) => 1
    case RecvX => 2
    case TakeY(_) => 3
    case PassY(_) => 3
    case Route => 4
    case Fetch => 5
    case Shift(_) => 6
    case Pull(_) => 6
    case Done => 7
  }

  function PassedY(pc: Pc, n: nat): int {
    match pc
    case SendX(i) => i - 1
    case SendY(i) => i - 1
    case RecvX => 0
    case TakeY(i) => i - 1
    case PassY(i) => i - 1
    case _ => n
  }

  /** How many values the sender at pc has put on the channel. */
  ghost function Sent(xs: seq<int>, ch: Channel, pc: Pc): int {
    if Full(xs, ch) == [] then 0
    else
      match ch.tag
      case TagX => if pc.SendX? then (if ch.dst < pc.i then 1 else 0) else if pc.SendY? then (if ch.dst <= pc.i then 1 else 0) else 1
      case TagY => PassedY(pc, |xs|)
      case TagZ => if Part(pc) < 5 then 0 else 1
      case TagO => if pc.Shift? then pc.i - 1 else if pc.Pull? then pc.i else if pc.Done? then ch.src else 0
  }

  /** How many values the receiver at pc has taken from the channel. */
  ghost function Received(xs: seq<int>, ch: Channel, pc: Pc): int {
    if Full(xs, ch) == [] then 0
    else
      match ch.tag
      case TagX => if Part(pc) < 3 then 0 else 1
      case TagY => if pc.TakeY? then pc.i - 1 else if pc.PassY? then pc.i else if Part(pc) < 3 then 0 else |xs|
      case TagZ => if Part(pc) < 6 then 0 else 1
      case TagO =>
        if pc.Collect? || pc.Shift? || pc.Pull? then pc.i - 1 else if pc.Done? then ch.src else 0
  }

  /** The local variables of process id where it stands. */
  ghost predicate LocalOk(xs: seq<int>, id: int, p: Proc) {
    match p.pc
    case SendX(i) => id == 0 && 1 <= i <= |xs| + 1 && |p.numbers| == |xs|
    case SendY(i) => id == 0 && 1 <= i <= |xs| && |p.numbers| == |xs|
    case Collect(i) =>
      && id == 0 && 1 <= i <= |xs| + 1 && |p.numbers| == |xs|
      && forall k :: |xs| - i < k < |xs| ==> 0 <= k && p.numbers[k] == Ranked(xs, k + 1)
    case RecvX => id > 0 && p.c == 1
    case TakeY(i) => id > 0 && 1 <= i <= |xs| + 1 && p.x == Get(xs, id - 1) && p.c == RankUpTo(xs, id, i - 1)
    case PassY(i) =>
      id > 0 && 1 <= i <= |xs| && p.x == Get(xs, id - 1) && p.y == Get(xs, i - 1) && p.c == RankUpTo(xs, id, i - 1)
    case Route => id > 0 && p.x == Get(xs, id - 1) && p.c == Rank(xs, id)
    case Fetch => id > 0
    case Shift(i) => id > 0 && 1 <= i <= id && p.z == Ranked(xs, id - i + 1)
    case Pull(i) => id > 0 && 1 <= i < id
    case Done => id == 0 ==> p.numbers == Sorted(xs)
  }

  /** A channel holds what was sent and not yet received. */
  ghost predicate ChannelOk(xs: seq<int>, s: State, ch: Channel) {
    if 0 <= ch.src < |s.procs| && 0 <= ch.dst < |s.procs| then
      var sent, received := Sent(xs, ch, s.procs[ch.src].pc), Received(xs, ch, s.procs[ch.dst].pc);
      0 <= received <= sent <= |Full(xs, ch)| && Queue(s, ch) == Full(xs, ch)[received..sent]
    else Queue(s, ch) == []
  }

  ghost predicate Inv(xs: seq<int>, s: State) {
    && |s.procs| == |xs| + 1
    && (forall id :: 0 <= id < |s.procs| ==> LocalOk(xs, id, s.procs[id]))
    && forall ch :: ChannelOk(xs, s, ch)
  }

  // ----- one step -----

  lemma OneSide(xs: seq<int>, p: Proc, id: nat, any: nat)
    ensures Source(|xs|, p, id, any) == None || Target(xs, p, id) == None
  {}

  lemma TargetPlace(xs: seq<int>, p: Proc, id: nat)
    requires id <= |xs| && LocalOk(xs, id, p) && Target(xs, p, id).Some?
    ensures var ch := Target(xs, p, id).value.0; ch.src == id && 0 <= ch.dst <= |xs|
  {
    hide Rank, RankUpTo, Ranked;
    if p.pc.Route? { RankRange(xs, id); }
  }

  /** A step adds exactly its message to what its process has sent, and the message is the next one. */
  lemma SentStep(xs: seq<int>, p: Proc, id: nat, v: int, ch: Channel)
    requires id <= |xs| && LocalOk(xs, id, p) && ch.src == id && 0 <= ch.dst <= |xs| && !p.pc.Done?
    ensures var m, n := Target(xs, p, id), Sent(xs, ch, p.pc);
      if m.Some? && m.value.0 == ch then
        0 <= n < |Full(xs, ch)| && Full(xs, ch)[n] == m.value.1 && Sent(xs, ch, After(xs, p, id, v).pc) == n + 1
      else Sent(xs, ch, After(xs, p, id, v).pc) == n
  {
    hide Rank, RankUpTo, Ranked, Counts;
    if p.pc.Route? { RankRange(xs, id); }
  }

  lemma ReceivedStep(xs: seq<int>, p: Proc, id: nat, any: nat, v: int, ch: Channel)
    requires id <= |xs| && LocalOk(xs, id, p) && ch.dst == id && 0 <= ch.src <= |xs| && !p.pc.Done?
    requires Source(|xs|, p, id, any).Some? ==> Full(xs, Source(|xs|, p, id, any).value) != []
    ensures Received(xs, ch, After(xs, p, id, v).pc) ==
      Received(xs, ch, p.pc) + if Source(|xs|, p, id, any) == Some(ch) then 1 else 0
  {
    hide RankUpTo, Ranked, Counts;
    if p.pc.Fetch? && ch.tag == TagZ && 1 <= any <= |xs| && 1 <= ch.src {
      RankOrder(xs, any, ch.src);
    }
    hide Rank;
  }

  /** v is the next message of the channel that process id is about to read, if it is. */
  ghost predicate NextMessage(xs: seq<int>, p: Proc, id: nat, any: nat, v: int) {
    match Source(|xs|, p, id, any)
    case None => true
    case Some(ch) => 0 <= Received(xs, ch, p.pc) < |Full(xs, ch)| && v == Full(xs, ch)[Received(xs, ch, p.pc)]
  }

  lemma LocalStep(xs: seq<int>, p: Proc, id: nat, any: nat, v: int)
    requires Bytes(xs) && id <= |xs| && LocalOk(xs, id, p) && NextMessage(xs, p, id, any, v) && !p.pc.Done?
    ensures LocalOk(xs, id, After(xs, p, id, v))
  {
    if id > 0 { RankStart(xs, id); }
    match p.pc {
      case PassY(i) => RankGrows(xs, id, i);
      case Fetch => OriginOf(xs, any);
      case _ =>
    }
    hide RankUpTo, Ranked, Counts;
  }

  /** How one step changes the queue of a channel. */
  lemma QueueStep(xs: seq<int>, s: State, id: nat, any: nat, ch: Channel)
    requires Enabled(xs, s, id, any)
    ensures var p := s.procs[id];
      var s', m := Next(xs, s, id, any), Target(xs, p, id);
      Queue(s', ch) == (if Source(|xs|, p, id, any) == Some(ch) then Queue(s, ch)[1..] else Queue(s, ch))
                       + (if m.Some? && m.value.0 == ch then [m.value.1] else [])
  {
    hide Source, Target, After, Message;
    var p := s.procs[id];
    HeldAfter(s.queues, Source(|xs|, p, id, any), Target(xs, p, id), ch);
    hide Held, Push, Pop;
  }

  lemma StepFacts(xs: seq<int>, s: State, id: nat, any: nat)
    requires Inv(xs, s) && Enabled(xs, s, id, any)
    ensures id < |s.procs| == |xs| + 1 && !s.procs[id].pc.Done? && LocalOk(xs, id, s.procs[id])
    ensures Next(xs, s, id, any).procs == s.procs[id := After(xs, s.procs[id], id, Message(xs, s, id, any))]
    ensures match Source(|xs|, s.procs[id], id, any)
      case None => true
      case Some(ch) => Queue(s, ch) != [] && ch.dst == id && 0 <= ch.src <= |xs| && Full(xs, ch) != []
  {
    hide LocalOk, Target, After, Message, Queue, Sent, Received, Full, Source;
    match Source(|xs|, s.procs[id], id, any)
    case None =>
    case Some(ch) =>
      SourcePlace(xs, s.procs[id], id, any);
      assert ChannelOk(xs, s, ch);
  }

  lemma SourcePlace(xs: seq<int>, p: Proc, id: nat, any: nat)
    requires LocalOk(xs, id, p) && Source(|xs|, p, id, any).Some?
    ensures Source(|xs|, p, id, any).value.dst == id
  {
    hide Rank, RankUpTo, Ranked;
  }

  lemma ChannelStep(xs: seq<int>, s: State, id: nat, any: nat, ch: Channel)
    requires Inv(xs, s) && Enabled(xs, s, id, any)
    ensures ChannelOk(xs, Next(xs, s, id, any), ch)
  {
    assert ChannelOk(xs, s, ch);
    hide Source, Target, After, Message, LocalOk, Sent, Received, Full, Next, Queue, Inv, Enabled;
    StepFacts(xs, s, id, any);
    var s', p, v := Next(xs, s, id, any), s.procs[id], Message(xs, s, id, any);
    var m := Target(xs, p, id);
    QueueStep(xs, s, id, any, ch);
    OneSide(xs, p, id, any);
    var taken, given := Source(|xs|, p, id, any) == Some(ch), m.Some? && m.value.0 == ch;
    if m.Some? { TargetPlace(xs, p, id); }
    if 0 <= ch.src < |s.procs| && 0 <= ch.dst < |s.procs| {
      var n, r := Sent(xs, ch, s.procs[ch.src].pc), Received(xs, ch, s.procs[ch.dst].pc);
      if ch.src == id { SentStep(xs, p, id, v, ch); }
      if ch.dst == id { ReceivedStep(xs, p, id, any, v, ch); }
      SliceStep(Full(xs, ch), r, n, taken, given, if m.Some? then m.value.1 else 0, Queue(s, ch), Queue(s', ch));
    }
  }

  lemma MessageRight(xs: seq<int>, s: State, id: nat, any: nat)
    requires Inv(xs, s) && Enabled(xs, s, id, any)
    ensures NextMessage(xs, s.procs[id], id, any, Message(xs, s, id, any))
  {
    hide LocalOk, Sent, Received, Full;
    StepFacts(xs, s, id, any);
    match Source(|xs|, s.procs[id], id, any)
    case None =>
    case Some(ch) => assert ChannelOk(xs, s, ch);
  }

  /** Every step of every process keeps the invariant. */
  lemma StepInv(xs: seq<int>, s: State, id: nat, any: nat)
    requires Bytes(xs) && Inv(xs, s) && Enabled(xs, s, id, any)
    ensures Inv(xs, Next(xs, s, id, any))
  {
    hide LocalOk, ChannelOk, Next, Enabled, After, Message, NextMessage;
    StepFacts(xs, s, id, any);
    MessageRight(xs, s, id, any);
    LocalStep(xs, s.procs[id], id, any, Message(xs, s, id, any));
    forall ch
      ensures ChannelOk(xs, Next(xs, s, id, any), ch)
    {
      ChannelStep(xs, s, id, any, ch);
    }
  }

  lemma InitInv(xs: seq<int>)
    ensures Inv(xs, Init(xs))
  {
    hide Rank, RankUpTo, Ranked, Counts;
    var s := Init(xs);
    forall ch
      ensures ChannelOk(xs, s, ch)
    {
    }
  }

  lemma {:induction false} RunInv(xs: seq<int>, schedule: seq<(nat, nat)>)
    requires Bytes(xs) && Run(xs, schedule).Some?
    ensures Inv(xs, Run(xs, schedule).value)
  {
    hide Inv, Next, Enabled;
    if schedule == [] {
      InitInv(xs);
    } else {
      var (id, any) := schedule[|schedule| - 1];
      RunInv(xs, schedule[..|schedule| - 1]);
      StepInv(xs, Run(xs, schedule[..|schedule| - 1]).value, id, any);
    }
  }

  // ----- no deadlock -----

  /** Process id can step, given that what it reads has been sent. */
  lemma Ready(xs: seq<int>, s: State, id: nat, any: nat)
    requires Inv(xs, s) && id < |s.procs| && !s.procs[id].pc.Done?
    requires match Source(|xs|, s.procs[id], id, any)
      case None => true
      case Some(ch) =>
        && ch.dst == id && 0 <= ch.src < |s.procs|
        && Received(xs, ch, s.procs[id].pc) < Sent(xs, ch, s.procs[ch.src].pc)
    ensures Enabled(xs, s, id, any)
  {
    hide Source, Sent, Received, Full, LocalOk;
    match Source(|xs|, s.procs[id], id, any)
    case None =>
    case Some(ch) => assert ChannelOk(xs, s, ch);
  }

  lemma FreeSteps(n: nat, p: Proc, id: nat, any: nat)
    ensures Part(p.pc) == 0 || p.pc.PassY? || p.pc.Route? || p.pc.Shift? ==> Source(n, p, id, any) == None
    ensures p.pc.TakeY? && p.pc.i > n ==> Source(n, p, id, any) == None
  {}

  /** What a process reads has been sent once the sender is past the part that sends it. */
  lemma NumberSent(xs: seq<int>, p: Proc, id: nat, ch: Channel, sender: Pc)
    requires id <= |xs| && LocalOk(xs, id, p) && Source(|xs|, p, id, 0) == Some(ch)
    requires (p.pc.RecvX? || p.pc.TakeY?) && Part(sender) != 0 && Part(sender) != 2 && Part(sender) != 3
    ensures ch.dst == id && 0 <= ch.src < id && Received(xs, ch, p.pc) < Sent(xs, ch, sender)
    ensures p.pc.RecvX? ==> ch.src == 0
  {
    hide Rank, RankUpTo, Ranked;
  }

  lemma RoutedSent(xs: seq<int>, p: Proc, id: nat, sender: Pc)
    requires 1 <= id <= |xs| && p.pc.Fetch? && Part(sender) >= 5
    ensures var ch := Channel(Origin(xs, id), id, TagZ);
      Source(|xs|, p, id, Origin(xs, id)) == Some(ch) && Received(xs, ch, p.pc) < Sent(xs, ch, sender)
  {
    hide Rank, RankUpTo, Ranked;
  }

  lemma ResultSent(xs: seq<int>, p: Proc, id: nat, ch: Channel)
    requires id <= |xs| && LocalOk(xs, id, p) && Source(|xs|, p, id, 0) == Some(ch) && (p.pc.Pull? || p.pc.Collect?)
    ensures ch.dst == id && 0 < ch.src <= |xs| && (id > 0 ==> ch.src < id) && Received(xs, ch, p.pc) < Sent(xs, ch, Done)
  {
    hide Rank, RankUpTo, Ranked;
  }

  lemma Kinds(xs: seq<int>, id: int, p: Proc)
    requires LocalOk(xs, id, p)
    ensures id == 0 ==> Part(p.pc) <= 1 || p.pc.Done?
    ensures id > 0 ==> Part(p.pc) >= 2
  {
    hide Rank, RankUpTo, Ranked;
  }

  lemma StuckMaster(xs: seq<int>, s: State)
    requires Inv(xs, s) && Stuck(xs, s)
    ensures s.procs[0].pc.Collect? || s.procs[0].pc.Done?
  {
    hide LocalOk, ChannelOk, Enabled, Source, Sent, Received;
    Kinds(xs, 0, s.procs[0]);
    if Part(s.procs[0].pc) == 0 {
      FreeSteps(|xs|, s.procs[0], 0, 0);
      Ready(xs, s, 0, 0);
    }
  }

  /** Where nobody can step, every number has passed every process. */
  lemma {:induction false} StuckRouted(xs: seq<int>, s: State, id: nat)
    requires Inv(xs, s) && Stuck(xs, s) && 1 <= id <= |xs|
    ensures Part(s.procs[id].pc) >= 5
    decreases id
  {
    hide LocalOk, ChannelOk, Enabled, Source, Sent, Received;
    var p := s.procs[id];
    Kinds(xs, id, p);
    StuckMaster(xs, s);
    FreeSteps(|xs|, p, id, 0);
    if Part(p.pc) < 5 {
      if Source(|xs|, p, id, 0).Some? {
        var ch := Source(|xs|, p, id, 0).value;
        NumberSent(xs, p, id, ch, Done);
        if ch.src > 0 { StuckRouted(xs, s, ch.src); }
        NumberSent(xs, p, id, ch, s.procs[ch.src].pc);
      }
      Ready(xs, s, id, 0);
    }
  }

  lemma {:induction false} StuckSlave(xs: seq<int>, s: State, id: nat)
    requires Inv(xs, s) && Stuck(xs, s) && 1 <= id <= |xs|
    ensures s.procs[id].pc.Done?
    decreases id
  {
    hide LocalOk, ChannelOk, Enabled, Source, Sent, Received;
    var p := s.procs[id];
    StuckRouted(xs, s, id);
    FreeSteps(|xs|, p, id, 0);
    if p.pc.Fetch? {
      var o := Origin(xs, id);
      StuckRouted(xs, s, o);
      RoutedSent(xs, p, id, s.procs[o].pc);
      Ready(xs, s, id, o);
    } else if !p.pc.Done? {
      if Source(|xs|, p, id, 0).Some? {
        var ch := Source(|xs|, p, id, 0).value;
        ResultSent(xs, p, id, ch);
        StuckSlave(xs, s, ch.src);
      }
      Ready(xs, s, id, 0);
    }
  }

  lemma StuckCollected(xs: seq<int>, s: State)
    requires Inv(xs, s) && Stuck(xs, s)
    ensures s.procs[0].pc.Done?
  {
    hide LocalOk, ChannelOk, Enabled, Source, Sent, Received;
    var p := s.procs[0];
    StuckMaster(xs, s);
    if p.pc.Collect? {
      if Source(|xs|, p, 0, 0).Some? {
        var ch := Source(|xs|, p, 0, 0).value;
        ResultSent(xs, p, 0, ch);
        StuckSlave(xs, s, ch.src);
      }
      Ready(xs, s, 0, 0);
    }
  }

  /** In every interleaving in which no process can go on, all are done and the master holds the numbers
      in stable ascending order. */
  lemma SortComputed(xs: seq<int>, schedule: seq<(nat, nat)>)
    requires Bytes(xs) && Run(xs, schedule).Some? && Stuck(xs, Run(xs, schedule).value)
    ensures var s := Run(xs, schedule).value;
      && |s.procs| == |xs| + 1 && (forall id :: 0 <= id < |s.procs| ==> s.procs[id].pc.Done?)
      && s.procs[0].numbers == Sorted(xs) && multiset(s.procs[0].numbers) == multiset(xs)
      && forall i, j :: 0 <= i < j < |xs| ==> s.procs[0].numbers[i] <= s.procs[0].numbers[j]
  {
    hide ChannelOk, Enabled, Source, Sent, Received, Stuck, Run;
    var s := Run(xs, schedule).value;
    RunInv(xs, schedule);
    StuckCollected(xs, s);
    forall id | 0 <= id < |s.procs|
      ensures s.procs[id].pc.Done?
    {
      if id > 0 { StuckSlave(xs, s, id); }
    }
    assert LocalOk(xs, 0, s.procs[0]);
    SortedPermutation(xs);
    forall i, j | 0 <= i < j < |xs|
      ensures Sorted(xs)[i] <= Sorted(xs)[j]
    {
      SortedAscending(xs, i, j);
    }
  }

  // ----- one value for each process -----

  /** At most one source ever has a value for process id to fetch: the process whose number has that rank. */
  lemma OneSource(xs: seq<int>, schedule: seq<(nat, nat)>, src: int, id: nat)
    requires Bytes(xs) && Run(xs, schedule).Some? && Queue(Run(xs, schedule).value, Channel(src, id, TagZ)) != []
    ensures 1 <= id <= |xs| && src == Origin(xs, id)
    ensures Queue(Run(xs, schedule).value, Channel(src, id, TagZ)) == [Ranked(xs, id)]
  {
    hide Run, LocalOk, Queue, Rank;
    var s := Run(xs, schedule).value;
    var ch := Channel(src, id, TagZ);
    RunInv(xs, schedule);
    assert ChannelOk(xs, s, ch);
    RankOrder(xs, src, Origin(xs, id));
  }

  // ----- every interleaving ends -----

  /** The most steps process id can still take, of n numbers. */
  function Rest(n: nat, id: int, pc: Pc): int {
    match pc
    case Done => 0
    case Collect(i) => n + 2 - i
    case SendX(i) => 3 * n + 4 - 2 * i
    case SendY(i) => 3 * n + 3 - 2 * i
    case Shift(i) => 2 * (id - i) + 1
    case Pull(i) => 2 * (id - i)
    case Fetch => 2 * id + 1
    case Route => 2 * id + 2
    case TakeY(i) => 2 * id + 5 + 2 * (n - i)
    case PassY(i) => 2 * id + 4 + 2 * (n - i)
    case RecvX => 2 * id + 4 + 2 * n
  }

  lemma RestFalls(xs: seq<int>, p: Proc, id: nat, v: int)
    requires id <= |xs| && LocalOk(xs, id, p)
    ensures 0 <= Rest(|xs|, id, p.pc)
    ensures !p.pc.Done? ==> Rest(|xs|, id, After(xs, p, id, v).pc) < Rest(|xs|, id, p.pc)
  {
    hide Rank, RankUpTo, Ranked, Counts;
  }

  function Rests(n: nat, ps: seq<Proc>): seq<int> {
    seq(|ps|, i requires 0 <= i < |ps| => Rest(n, i, ps[i].pc))
  }

  lemma {:induction false} StepsAreBounded(xs: seq<int>, schedule: seq<(nat, nat)>)
    requires Bytes(xs) && Run(xs, schedule).Some?
    ensures |schedule| + Sum(Rests(|xs|, Run(xs, schedule).value.procs)) <= Sum(Rests(|xs|, Init(xs).procs))
  {
    hide LocalOk, Rest, Init, Enabled, Next, Inv;
    if schedule != [] {
      var before := schedule[..|schedule| - 1];
      var r, s := Run(xs, before).value, Run(xs, schedule).value;
      var (id, any) := schedule[|schedule| - 1];
      StepsAreBounded(xs, before);
      RunInv(xs, before);
      StepFacts(xs, r, id, any);
      RestFalls(xs, r.procs[id], id, Message(xs, r, id, any));
      SumUpdate(Rests(|xs|, r.procs), id, Rest(|xs|, id, s.procs[id].pc));
      assert Rests(|xs|, s.procs) == Rests(|xs|, r.procs)[id := Rest(|xs|, id, s.procs[id].pc)];
    }
  }

  lemma {:induction false} SlaveRests(xs: seq<int>, n: nat, k: nat)
    requires |xs| == k && forall i :: 0 <= i < k ==> xs[i] == 2 * i + 4 + 2 * n
    ensures Sum(xs) == k * (k + 3 + 2 * n)
  {
    if k > 0 {
      var front := xs[..k - 1];
      SlaveRests(front, n, k - 1);
      SumLast(front, xs[k - 1]);
      assert xs == front + [xs[k - 1]];
      Squares(k, n);
    }
  }

  lemma Squares(k: int, n: int)
    ensures (k - 1) * (k + 2 + 2 * n) + 2 * (k - 1) + 4 + 2 * n == k * (k + 3 + 2 * n)
  {}

  lemma {:induction false} SumLast(xs: seq<int>, v: int)
    ensures Sum(xs + [v]) == Sum(xs) + v
  {
    if xs != [] {
      SumLast(xs[1..], v);
      assert (xs + [v])[1..] == xs[1..] + [v];
    }
  }

  lemma StartRests(xs: seq<int>)
    ensures Sum(Rests(|xs|, Init(xs).procs)) == 3 * |xs| * |xs| + 8 * |xs| + 2
  {
    var n := |xs|;
    var rests := Rests(n, Init(xs).procs);
    var slaves := seq(n + 1, i => 2 * i + 4 + 2 * n);
    assert rests == slaves[0 := 3 * n + 2];
    SlaveRests(slaves, n, n + 1);
    SumUpdate(slaves, 0, 3 * n + 2);
  }

  /** Termination: no interleaving of n numbers has more than 3 * n * n + 8 * n + 2 steps. */
  lemma Terminates(xs: seq<int>, schedule: seq<(nat, nat)>)
    requires Bytes(xs) && Run(xs, schedule).Some?
    ensures |schedule| <= 3 * |xs| * |xs| + 8 * |xs| + 2
  {
    hide LocalOk, Rest, Init, ChannelOk, Run;
    StepsAreBounded(xs, schedule);
    StartRests(xs);
    RunInv(xs, schedule);
    var s := Run(xs, schedule).value;
    forall i | 0 <= i < |s.procs|
      ensures Rest(|xs|, i, s.procs[i].pc) >= 0
    {
      RestFalls(xs, s.procs[i], i, 0);
    }
    SumNonnegative(Rests(|xs|, s.procs));
  }
}
