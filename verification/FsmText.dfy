/** Reading and printing automata. A parser returns all ways of reading a prefix of its input, each with the
    rest, as the parsing library of the source does; a parser of one character has at most one. */
module FsmText {
  import opened Wrappers
  import opened Lists
  import opened Automaton

  datatype Result<T> = Right(value: T) | Left(message: string)

  // ----- the parser -----

  predicate IsName(c: char) { c != ',' && c != '\n' }

  /** The rest after the character c. */
  function ParseChar(c: char, s: string): Option<string> {
    if s != [] && s[0] == c then Some(s[1..]) else None
  }

  function Longer(c: char, v: (State, string)): (State, string) { ([c] + v.0, v.1) }

  /** One or more name characters. */
  function ParseState(s: string): seq<(State, string)> {
    if s == [] || !IsName(s[0]) then [] else [([s[0]], s[1..])] + Map(ParseState(s[1..]), v => Longer(s[0], v))
  }

  function AddName(name: State, w: (seq<State>, string)): (seq<State>, string) { ([name] + w.0, w.1) }

  /** One name, and perhaps a comma and more names; the rest of a name is shorter than the n characters
      that were left before it. */
  function StatesFrom(n: nat, v: (State, string)): seq<(seq<State>, string)>
    decreases n, 0
  {
    [([v.0], v.1)] +
    match ParseChar(',', v.1)
    case None => []
    case Some(r) => if |r| < n then Map(ParseStates(r), w => AddName(v.0, w)) else []
  }

  /** One or more names with commas between them. */
  function ParseStates(s: string): seq<(seq<State>, string)>
    decreases |s|, 1
  {
    FlatMap(ParseState(s), v => StatesFrom(|s|, v))
  }

  function LineEnd(from: State, symbol: Symbol, v: (State, string)): seq<(Transition, string)> {
    match ParseChar('\n', v.1)
    case None => []
    case Some(r) => [(Transition(from, symbol, v.0), r)]
  }

  /** After the source of a transition: a comma, any character, a comma, a name and the end of the line. */
  function LineFrom(v: (State, string)): seq<(Transition, string)> {
    match ParseChar(',', v.1)
    case None => []
    case Some(r) =>
      if r == [] then []
      else
        match ParseChar(',', r[1..])
        case None => []
        case Some(t) => FlatMap(ParseState(t), w => LineEnd(v.0, r[0], w))
  }

  function ParseLine(s: string): seq<(Transition, string)> {
    FlatMap(ParseState(s), v => LineFrom(v))
  }

  function AddLine(t: Transition, w: (seq<Transition>, string)): (seq<Transition>, string) { ([t] + w.0, w.1) }

  function LinesFrom(n: nat, v: (Transition, string)): seq<(seq<Transition>, string)>
    decreases n, 0
  {
    [([v.0], v.1)] + if |v.1| < n then Map(ParseTransitions(v.1), w => AddLine(v.0, w)) else []
  }

  /** One or more lines. */
  function ParseTransitions(s: string): seq<(seq<Transition>, string)>
    decreases |s|, 1
  {
    FlatMap(ParseLine(s), v => LinesFrom(|s|, v))
  }

  function Alphabet(ts: seq<Transition>): seq<Symbol> {
    Sort(Nub(Map(ts, (t: Transition) => t.symbol)), (a, b) => a <= b)
  }

  /** The end of the input and the result. */
  function Finish(states: seq<State>, initial: State, finals: seq<State>, v: (seq<Transition>, string)): seq<FSM> {
    if v.1 == [] then [FSM(Alphabet(v.0), states, initial, finals, v.0)] else []
  }

  function AfterFinals(states: seq<State>, initial: State, v: (seq<State>, string)): seq<FSM> {
    match ParseChar('\n', v.1)
    case None => []
    case Some(r) => FlatMap(ParseTransitions(r), w => Finish(states, initial, v.0, w))
  }

  function AfterInitial(states: seq<State>, v: (State, string)): seq<FSM> {
    match ParseChar('\n', v.1)
    case None => []
    case Some(r) => FlatMap(ParseStates(r), w => AfterFinals(states, v.0, w))
  }

  function AfterStates(v: (seq<State>, string)): seq<FSM> {
    match ParseChar('\n', v.1)
    case None => []
    case Some(r) => FlatMap(ParseState(r), w => AfterInitial(v.0, w))
  }

  /** All automata that the whole text can be read as. */
  function FsmParser(s: string): seq<FSM> {
    FlatMap(ParseStates(s), v => AfterStates(v))
  }

  function ParseFSM(s: string): Result<FSM> {
    if |FsmParser(s)| == 1 then Right(FsmParser(s)[0]) else Left("Parser error")
  }

  // ----- reading from left to right -----

  /** The longest name in front. */
  function ScanState(s: string): Option<(State, string)> {
    if s == [] || !IsName(s[0]) then None
    else
      match ScanState(s[1..])
      case None => Some(([s[0]], s[1..]))
      case Some(v) => Some(Longer(s[0], v))
  }

  lemma {:induction false} ScanStateShrinks(s: string)
    ensures ScanState(s).Some? ==> |ScanState(s).value.1| < |s|
  {
    if s != [] { ScanStateShrinks(s[1..]); }
  }

  function ScanStates(s: string): Option<(seq<State>, string)>
    decreases |s|
  {
    match ScanState(s)
    case None => None
    case Some(v) =>
      ScanStateShrinks(s);
      match ParseChar(',', v.1)
      case None => Some(([v.0], v.1))
      case Some(r) =>
        match ScanStates(r)
        case None => None
        case Some(w) => Some(AddName(v.0, w))
  }

  function ScanLine(s: string): Option<(Transition, string)> {
    match ScanState(s)
    case None => None
    case Some(v) =>
      match ParseChar(',', v.1)
      case None => None
      case Some(r) =>
        if r == [] || ParseChar(',', r[1..]).None? then None
        else
          match ScanState(ParseChar(',', r[1..]).value)
          case None => None
          case Some(w) =>
            match ParseChar('\n', w.1)
            case None => None
            case Some(rest) => Some((Transition(v.0, r[0], w.0), rest))
  }

  lemma ScanLineShrinks(s: string)
    ensures ScanLine(s).Some? ==> |ScanLine(s).value.1| < |s|
  {
    ScanStateShrinks(s);
    if ScanLine(s).Some? {
      ScanStateShrinks(ParseChar(',', ParseChar(',', ScanState(s).value.1).value[1..]).value);
    }
  }

  function ScanLines(s: string): Option<seq<Transition>>
    decreases |s|
  {
    match ScanLine(s)
    case None => None
    case Some(v) =>
      ScanLineShrinks(s);
      if v.1 == [] then Some([v.0])
      else
        match ScanLines(v.1)
        case None => None
        case Some(ts) => Some([v.0] + ts)
  }

  function Scan(s: string): Option<FSM> {
    match ScanStates(s)
    case None => None
    case Some(v) =>
      match ParseChar('\n', v.1)
      case None => None
      case Some(r) => ScanAfterStates(v.0, r)
  }

  function ScanAfterStates(states: seq<State>, s: string): Option<FSM> {
    match ScanState(s)
    case None => None
    case Some(v) =>
      match ParseChar('\n', v.1)
      case None => None
      case Some(r) => ScanAfterInitial(states, v.0, r)
  }

  function ScanAfterInitial(states: seq<State>, initial: State, s: string): Option<FSM> {
    match ScanStates(s)
    case None => None
    case Some(v) =>
      match ParseChar('\n', v.1)
      case None => None
      case Some(r) =>
        match ScanLines(r)
        case None => None
        case Some(ts) => Some(FSM(Alphabet(ts), states, initial, v.0, ts))
  }

  function AsList<T>(r: Option<T>): seq<T> {
    match r case None => [] case Some(v) => [v]
  }

  // ----- laws of FlatMap -----

  lemma {:induction false} FlatMapConcat<T, U>(xs: seq<T>, ys: seq<T>, f: T -> seq<U>)
    ensures FlatMap(xs + ys, f) == FlatMap(xs, f) + FlatMap(ys, f)
  {
    if xs == [] {
      assert xs + ys == ys;
    } else {
      assert (xs + ys)[1..] == xs[1..] + ys;
      FlatMapConcat(xs[1..], ys, f);
    }
  }

  lemma {:induction false} FlatMapNested<T, U, V>(xs: seq<T>, g: T -> seq<U>, f: U -> seq<V>, h: T -> seq<V>)
    requires forall x :: h(x) == FlatMap(g(x), f)
    ensures FlatMap(FlatMap(xs, g), f) == FlatMap(xs, h)
  {
    if xs != [] {
      FlatMapConcat(g(xs[0]), FlatMap(xs[1..], g), f);
      FlatMapNested(xs[1..], g, f, h);
    }
  }

  lemma {:induction false} FlatMapMap<T, U, V>(xs: seq<T>, g: T -> U, f: U -> seq<V>, h: T -> seq<V>)
    requires forall x :: h(x) == f(g(x))
    ensures FlatMap(Map(xs, g), f) == FlatMap(xs, h)
  {
    if xs != [] {
      FlatMapMap(xs[1..], g, f, h);
      assert Map(xs, g)[1..] == Map(xs[1..], g);
    }
  }

  lemma FlatMapCons<T, U>(x: T, xs: seq<T>, f: T -> seq<U>)
    ensures FlatMap([x] + xs, f) == f(x) + FlatMap(xs, f)
  {
    assert ([x] + xs)[1..] == xs;
  }

  // ----- the parser reads from left to right -----

  /** If what follows a name must not go on with a name character, only the longest name counts. */
  lemma {:induction false} StateScan<U>(s: string, f: ((State, string)) -> seq<U>)
    requires forall v: (State, string) :: v.1 != [] && IsName(v.1[0]) ==> f(v) == []
    ensures FlatMap(ParseState(s), f) == match ScanState(s) case None => [] case Some(v) => f(v)
  {
    if s != [] && IsName(s[0]) {
      var first := ([s[0]], s[1..]);
      var h := (v: (State, string)) => f(Longer(s[0], v));
      FlatMapCons(first, Map(ParseState(s[1..]), v => Longer(s[0], v)), f);
      FlatMapMap(ParseState(s[1..]), v => Longer(s[0], v), f, h);
      StateScan(s[1..], h);
      ScanStateNone(s[1..]);
      hide FlatMap, Map;
    }
  }

  lemma ScanStateNone(s: string)
    ensures ScanState(s).None? <==> s == [] || !IsName(s[0])
  {}

  lemma {:induction false} StatesScan<U>(s: string, f: ((seq<State>, string)) -> seq<U>)
    requires forall v: (seq<State>, string) :: v.1 == [] || v.1[0] != '\n' ==> f(v) == []
    ensures FlatMap(ParseStates(s), f) == match ScanStates(s) case None => [] case Some(v) => f(v)
    decreases |s|
  {
    var h := (v: (State, string)) => FlatMap(StatesFrom(|s|, v), f);
    FlatMapNested(ParseState(s), v => StatesFrom(|s|, v), f, h);
    forall v: (State, string)
      ensures h(v) == f(([v.0], v.1)) +
        match ParseChar(',', v.1)
        case None => []
        case Some(r) => if |r| < |s| then FlatMap(Map(ParseStates(r), w => AddName(v.0, w)), f) else []
    {
      FlatMapCons(([v.0], v.1), StatesFrom(|s|, v)[1..], f);
      assert StatesFrom(|s|, v) == [([v.0], v.1)] + StatesFrom(|s|, v)[1..];
    }
    StateScan(s, h);
    ScanStateShrinks(s);
    match ScanState(s)
    case None =>
    case Some(v) =>
      if v.1 != [] && v.1[0] == ',' {
        var r := v.1[1..];
        var g := (w: (seq<State>, string)) => f(AddName(v.0, w));
        FlatMapMap(ParseStates(r), w => AddName(v.0, w), f, g);
        StatesScan(r, g);
      }
  }

  lemma LineScan<U>(s: string, f: ((Transition, string)) -> seq<U>)
    ensures FlatMap(ParseLine(s), f) == match ScanLine(s) case None => [] case Some(v) => f(v)
  {
    var h := (v: (State, string)) => FlatMap(LineFrom(v), f);
    FlatMapNested(ParseState(s), v => LineFrom(v), f, h);
    StateScan(s, h);
    match ScanState(s)
    case None =>
    case Some(v) => LineFromScan(v, f);
  }

  lemma LineFromScan<U>(v: (State, string), f: ((Transition, string)) -> seq<U>)
    ensures FlatMap(LineFrom(v), f) ==
      match ParseChar(',', v.1)
      case None => []
      case Some(r) =>
        if r == [] || ParseChar(',', r[1..]).None? then []
        else
          match ScanState(ParseChar(',', r[1..]).value)
          case None => []
          case Some(w) => FlatMap(LineEnd(v.0, r[0], w), f)
  {
    if v.1 != [] && v.1[0] == ',' && v.1[1..] != [] && ParseChar(',', v.1[2..]).Some? {
      var r := v.1[1..];
      assert r[1..] == v.1[2..];
      var t := ParseChar(',', r[1..]).value;
      var h := (w: (State, string)) => FlatMap(LineEnd(v.0, r[0], w), f);
      FlatMapNested(ParseState(t), w => LineEnd(v.0, r[0], w), f, h);
      StateScan(t, h);
    }
  }

  lemma LinesFromFlat<U>(n: nat, v: (Transition, string), f: ((seq<Transition>, string)) -> seq<U>)
    ensures FlatMap(LinesFrom(n, v), f) == f(([v.0], v.1)) +
      if |v.1| < n then FlatMap(Map(ParseTransitions(v.1), w => AddLine(v.0, w)), f) else []
  {
    FlatMapCons(([v.0], v.1), LinesFrom(n, v)[1..], f);
    assert LinesFrom(n, v) == [([v.0], v.1)] + LinesFrom(n, v)[1..];
  }

  lemma {:induction false} LinesScan<U>(s: string, f: ((seq<Transition>, string)) -> seq<U>)
    requires forall v: (seq<Transition>, string) :: v.1 != [] ==> f(v) == []
    ensures FlatMap(ParseTransitions(s), f) == match ScanLines(s) case None => [] case Some(ts) => f((ts, []))
    decreases |s|
  {
    var h := (v: (Transition, string)) => FlatMap(LinesFrom(|s|, v), f);
    assert ParseTransitions(s) == FlatMap(ParseLine(s), v => LinesFrom(|s|, v));
    FlatMapNested(ParseLine(s), v => LinesFrom(|s|, v), f, h);
    LineScan(s, h);
    ScanLineShrinks(s);
    hide FlatMap, Map, ParseLine, ParseTransitions, ScanLine, LinesFrom;
    match ScanLine(s)
    case None =>
    case Some(v) =>
      LinesFromFlat(|s|, v, f);
      var g := (w: (seq<Transition>, string)) => f(AddLine(v.0, w));
      FlatMapMap(ParseTransitions(v.1), w => AddLine(v.0, w), f, g);
      LinesScan(v.1, g);
      if v.1 == [] { NoLines(); }
  }

  lemma NoLines()
    ensures ScanLines([]) == None
  {}

  lemma AfterFinalsScan(states: seq<State>, initial: State, v: (seq<State>, string))
    ensures AfterFinals(states, initial, v) ==
      match ParseChar('\n', v.1)
      case None => []
      case Some(r) =>
        match ScanLines(r) case None => [] case Some(ts) => [FSM(Alphabet(ts), states, initial, v.0, ts)]
  {
    if ParseChar('\n', v.1).Some? {
      LinesScan(ParseChar('\n', v.1).value, w => Finish(states, initial, v.0, w));
    }
  }

  lemma AfterInitialScan(states: seq<State>, v: (State, string))
    ensures AfterInitial(states, v) ==
      match ParseChar('\n', v.1) case None => [] case Some(r) => AsList(ScanAfterInitial(states, v.0, r))
  {
    if ParseChar('\n', v.1).Some? {
      var r := ParseChar('\n', v.1).value;
      StatesScan(r, w => AfterFinals(states, v.0, w));
      if ScanStates(r).Some? { AfterFinalsScan(states, v.0, ScanStates(r).value); }
    }
  }

  lemma AfterStatesScan(v: (seq<State>, string))
    ensures AfterStates(v) ==
      match ParseChar('\n', v.1) case None => [] case Some(r) => AsList(ScanAfterStates(v.0, r))
  {
    if ParseChar('\n', v.1).Some? {
      var r := ParseChar('\n', v.1).value;
      StateScan(r, w => AfterInitial(v.0, w));
      if ScanState(r).Some? { AfterInitialScan(v.0, ScanState(r).value); }
    }
  }

  /** The grammar is unambiguous: of all ways of reading a text, at most one reaches its end, and it is found
      by reading from left to right. */
  lemma Unambiguous(s: string)
    ensures FsmParser(s) == AsList(Scan(s))
  {
    StatesScan(s, v => AfterStates(v));
    if ScanStates(s).Some? { AfterStatesScan(ScanStates(s).value); }
  }

  // ----- the text of an automaton -----

  function Intercalate(names: seq<State>): string {
    if names == [] then "" else if |names| == 1 then names[0] else names[0] + "," + Intercalate(names[1..])
  }

  function Line(t: Transition): string {
    t.from + ([','] + ([t.symbol] + ([','] + t.to)))
  }

  function FileLines(ts: seq<Transition>): string {
    if ts == [] then "" else Line(ts[0]) + (['\n'] + FileLines(ts[1..]))
  }

  /** The automaton in the format of the input files. */
  function FileText(m: FSM): string {
    Intercalate(m.states) + (['\n'] + (m.initialState + (['\n'] + (Intercalate(m.finalStates) + (['\n'] + FileLines(m.transitions))))))
  }

  predicate IsStateName(name: State) {
    name != "" && ',' !in name && '\n' !in name
  }

  /** Automata that the format can express: nonempty names without separators, at least one state, final state
      and transition, any symbols, and the alphabet of the transitions. */
  predicate Readable(m: FSM) {
    && m.states != [] && m.finalStates != [] && m.transitions != [] && m.alphabet == Alphabet(m.transitions)
    && IsStateName(m.initialState)
    && (forall x :: x in m.states ==> IsStateName(x)) && (forall x :: x in m.finalStates ==> IsStateName(x))
    && (forall t :: t in m.transitions ==> IsStateName(t.from) && IsStateName(t.to))
  }

  // ----- from the text to the automaton -----

  lemma {:induction false} ScanName(name: State, tail: string)
    requires IsStateName(name) && (tail != [] ==> !IsName(tail[0]))
    ensures ScanState(name + tail) == Some((name, tail))
  {
    var s := name + tail;
    assert s[0] == name[0] && s[1..] == name[1..] + tail;
    if |name| > 1 {
      ScanName(name[1..], tail);
      assert name == [name[0]] + name[1..];
    } else {
      assert s[1..] == tail && name == [name[0]];
    }
  }

  lemma ScanOne(s: string, v: (State, string))
    requires ScanState(s) == Some(v) && ParseChar(',', v.1) == None
    ensures ScanStates(s) == Some(([v.0], v.1))
  {
    hide ScanState, ParseChar;
  }

  lemma ScanMore(s: string, v: (State, string), r: string, w: (seq<State>, string))
    requires ScanState(s) == Some(v) && ParseChar(',', v.1) == Some(r) && ScanStates(r) == Some(w)
    ensures ScanStates(s) == Some(AddName(v.0, w))
  {
    hide ScanState, ParseChar;
  }

  lemma {:induction false} ScanNames(names: seq<State>, tail: string)
    requires names != [] && (forall x :: x in names ==> IsStateName(x)) && tail != [] && tail[0] == '\n'
    ensures ScanStates(Intercalate(names) + tail) == Some((names, tail))
    decreases |names|
  {
    hide IsStateName, ScanState, ScanStates;
    var name := names[0];
    if |names| == 1 {
      ScanName(name, tail);
      ScanOne(name + tail, (name, tail));
      assert names == [name];
    } else {
      var rest := Intercalate(names[1..]) + tail;
      assert Intercalate(names) + tail == name + ([','] + rest);
      ScanName(name, [','] + rest);
      CharFirst(',', rest);
      ScanNames(names[1..], tail);
      ScanMore(name + ([','] + rest), (name, [','] + rest), rest, (names[1..], tail));
      assert names == [name] + names[1..];
    }
  }

  lemma CharFirst(c: char, s: string)
    ensures ParseChar(c, [c] + s) == Some(s)
  {
    assert ([c] + s)[1..] == s;
  }

  lemma LineParts(s: string, v: (State, string), r: string, u: string, w: (State, string), rest: string)
    requires ScanState(s) == Some(v) && ParseChar(',', v.1) == Some(r) && r != []
    requires ParseChar(',', r[1..]) == Some(u) && ScanState(u) == Some(w) && ParseChar('\n', w.1) == Some(rest)
    ensures ScanLine(s) == Some((Transition(v.0, r[0], w.0), rest))
  {
    hide ScanState, ParseChar;
  }

  lemma LineRest(t: Transition, tail: string)
    ensures Line(t) + (['\n'] + tail) == t.from + ([','] + ([t.symbol] + ([','] + (t.to + (['\n'] + tail)))))
  {}

  lemma ScanLineOf(t: Transition, tail: string)
    requires IsStateName(t.from) && IsStateName(t.to)
    ensures ScanLine(Line(t) + (['\n'] + tail)) == Some((t, tail))
  {
    hide IsStateName, ScanLine, ScanState, ParseChar;
    LineRest(t, tail);
    hide Line;
    var end := ['\n'] + tail;
    var u := t.to + end;
    var r := [t.symbol] + ([','] + u);
    ScanName(t.from, [','] + r);
    CharFirst(',', r);
    assert r[1..] == [','] + u && r[0] == t.symbol;
    CharFirst(',', u);
    ScanName(t.to, end);
    CharFirst('\n', tail);
    LineParts(t.from + ([','] + r), (t.from, [','] + r), r, u, (t.to, end), tail);
  }

  lemma {:induction false} ScanFileLines(ts: seq<Transition>)
    requires ts != [] && forall t :: t in ts ==> IsStateName(t.from) && IsStateName(t.to)
    ensures ScanLines(FileLines(ts)) == Some(ts)
    decreases |ts|
  {
    hide Line, IsStateName, ScanLine;
    ScanLineOf(ts[0], FileLines(ts[1..]));
    if |ts| > 1 {
      ScanFileLines(ts[1..]);
      assert FileLines(ts[1..]) != [];
      assert ts == [ts[0]] + ts[1..];
    } else {
      assert ts == [ts[0]];
    }
  }

  lemma ScanParts(m: FSM, s: string, r1: string, r2: string, r3: string)
    requires m.alphabet == Alphabet(m.transitions)
    requires ScanStates(s) == Some((m.states, ['\n'] + r1)) && ScanState(r1) == Some((m.initialState, ['\n'] + r2))
    requires ScanStates(r2) == Some((m.finalStates, ['\n'] + r3)) && ScanLines(r3) == Some(m.transitions)
    ensures Scan(s) == Some(m)
  {
    hide ScanStates, ScanState, ScanLines, Alphabet, ParseChar;
    CharFirst('\n', r1);
    CharFirst('\n', r2);
    CharFirst('\n', r3);
  }

  lemma ScanFile(m: FSM)
    requires Readable(m)
    ensures Scan(FileText(m)) == Some(m)
  {
    hide IsStateName, Alphabet, ScanStates, ScanState, ScanLines, Scan, FileLines, Intercalate;
    var r3 := FileLines(m.transitions);
    var r2 := Intercalate(m.finalStates) + (['\n'] + r3);
    var r1 := m.initialState + (['\n'] + r2);
    ScanNames(m.states, ['\n'] + r1);
    ScanName(m.initialState, ['\n'] + r2);
    ScanNames(m.finalStates, ['\n'] + r3);
    ScanFileLines(m.transitions);
    ScanParts(m, FileText(m), r1, r2, r3);
  }

  // ----- from the automaton to the text -----

  lemma {:induction false} NameText(s: string)
    ensures ScanState(s).Some? ==>
      var v := ScanState(s).value;
      s == v.0 + v.1 && IsStateName(v.0)
  {
    if s != [] {
      NameText(s[1..]);
      assert s == [s[0]] + s[1..];
    }
  }

  lemma CharText(c: char, s: string)
    ensures ParseChar(c, s).Some? ==> s == [c] + ParseChar(c, s).value
  {}

  lemma {:induction false} NamesText(s: string)
    ensures ScanStates(s).Some? ==>
      var v := ScanStates(s).value;
      s == Intercalate(v.0) + v.1 && v.0 != [] && forall x :: x in v.0 ==> IsStateName(x)
    decreases |s|
  {
    hide IsStateName;
    NameText(s);
    if ScanState(s).Some? {
      var v := ScanState(s).value;
      CharText(',', v.1);
      if ParseChar(',', v.1).Some? {
        var r := ParseChar(',', v.1).value;
        ScanStateShrinks(s);
        NamesText(r);
        if ScanStates(r).Some? {
          var w := ScanStates(r).value;
          assert ([v.0] + w.0)[1..] == w.0;
        }
      }
    }
  }

  lemma LineText(s: string)
    ensures ScanLine(s).Some? ==>
      var v := ScanLine(s).value;
      s == Line(v.0) + (['\n'] + v.1) && IsStateName(v.0.from) && IsStateName(v.0.to)
  {
    NameText(s);
    hide IsStateName, ScanState, Line;
    if ScanLine(s).Some? {
      var v := ScanState(s).value;
      CharText(',', v.1);
      var r := ParseChar(',', v.1).value;
      assert r == [r[0]] + r[1..];
      CharText(',', r[1..]);
      var u := ParseChar(',', r[1..]).value;
      NameText(u);
      var w := ScanState(u).value;
      CharText('\n', w.1);
      LineRest(ScanLine(s).value.0, ParseChar('\n', w.1).value);
    }
  }

  lemma {:induction false} LinesText(s: string)
    requires ScanLines(s).Some?
    ensures var ts := ScanLines(s).value;
      s == FileLines(ts) && ts != [] && forall t :: t in ts ==> IsStateName(t.from) && IsStateName(t.to)
    decreases |s|
  {
    hide IsStateName, Line, ScanLine;
    ScanLineShrinks(s);
    var v := ScanLine(s).value;
    LineText(s);
    if v.1 != [] {
      var rest := ScanLines(v.1).value;
      assert ScanLines(s).value == [v.0] + rest;
      LinesText(v.1);
      assert ([v.0] + rest)[1..] == rest;
    }
  }

  lemma ScannedText(s: string, m: FSM)
    requires Scan(s) == Some(m)
    ensures Readable(m) && s == FileText(m)
  {
    hide IsStateName, ScanStates, ScanState, ScanLines, ParseChar, Intercalate, FileLines, Alphabet;
    NamesText(s);
    var a := ScanStates(s).value;
    CharText('\n', a.1);
    var r1 := ParseChar('\n', a.1).value;
    NameText(r1);
    var b := ScanState(r1).value;
    CharText('\n', b.1);
    var r2 := ParseChar('\n', b.1).value;
    NamesText(r2);
    var c := ScanStates(r2).value;
    CharText('\n', c.1);
    LinesText(ParseChar('\n', c.1).value);
  }

  /** A text reads as m exactly if the format can express m and the text is that of m. */
  lemma ParseExactly(s: string, m: FSM)
    ensures ParseFSM(s) == Right(m) <==> Readable(m) && s == FileText(m)
  {
    hide Readable, Scan, FsmParser, FileText;
    Unambiguous(s);
    if Scan(s) == Some(m) { ScannedText(s, m); }
    if Readable(m) && s == FileText(m) { ScanFile(m); }
  }
}
