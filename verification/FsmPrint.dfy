/** Printing automata, and when what is printed reads back as the same automaton. */
module FsmPrint {
  import opened Wrappers
  import opened Lists
  import opened Automaton
  import opened FsmText

  /** How a printable ASCII character or a line end is shown between the given quotes. */
  function Escaped(quote: char, c: char): string {
    if c == '\n' then ['\\', 'n'] else if c == quote || c == '\\' then ['\\', c] else [c]
  }

  function ShowString(s: string): string {
    "\"" + FlatMap(s, c => Escaped('\"', c)) + "\""
  }

  function ShowChar(c: char): string {
    "'" + Escaped('\'', c) + "'"
  }

  predicate NoQuote(c: char) { c != '\"' && c != '\'' }

  function ShowTransition(t: Transition): string {
    Filter(ShowString(t.from) + "," + ShowChar(t.symbol) + "," + ShowString(t.to), ch => NoQuote(ch))
  }

  function ShowLines(acc: string, ts: seq<Transition>): string
    decreases |ts|
  {
    if ts == [] then acc else ShowLines(acc + "\n" + ShowTransition(ts[0]), ts[1..])
  }

  function ShowFSM(m: FSM): string {
    ShowLines(Intercalate(m.states) + "\n" + m.initialState + "\n" + Intercalate(m.finalStates), m.transitions)
  }

  /** The characters that Escaped knows. */
  predicate Known(c: char) {
    ' ' <= c <= '~' || c == '\n'
  }

  /** Shown as itself, and kept. */
  predicate Plain(c: char) {
    NoQuote(c) && c != '\\' && c != '\n'
  }

  predicate KnownTransition(t: Transition) {
    (forall c :: c in t.from ==> Known(c)) && Known(t.symbol) && forall c :: c in t.to ==> Known(c)
  }

  predicate PlainTransition(t: Transition) {
    (forall c :: c in t.from ==> Plain(c)) && Plain(t.symbol) && forall c :: c in t.to ==> Plain(c)
  }

  predicate QuoteFree(t: Transition) {
    (forall c :: c in t.from ==> NoQuote(c)) && NoQuote(t.symbol) && forall c :: c in t.to ==> NoQuote(c)
  }

  // ----- how a transition is shown -----

  lemma {:induction false} FilterConcat<T>(xs: seq<T>, ys: seq<T>, p: T -> bool)
    ensures Filter(xs + ys, p) == Filter(xs, p) + Filter(ys, p)
  {
    if xs == [] {
      assert xs + ys == ys;
    } else {
      var first := if p(xs[0]) then [xs[0]] else [];
      assert (xs + ys)[1..] == xs[1..] + ys;
      FilterConcat(xs[1..], ys, p);
      assert Filter(xs + ys, p) == first + Filter(xs[1..] + ys, p);
      hide Filter;
    }
  }

  lemma {:induction false} FilterAll<T>(xs: seq<T>, p: T -> bool)
    requires forall x :: x in xs ==> p(x)
    ensures Filter(xs, p) == xs
  {
    if xs != [] { FilterAll(xs[1..], p); }
  }

  /** Without quotes, a text is shown as itself or longer. */
  lemma {:induction false} EscapedLength(s: string)
    requires forall c :: c in s ==> NoQuote(c)
    ensures var e := FlatMap(s, c => Escaped('\"', c));
      && |e| >= |s| && (forall c :: c in e ==> NoQuote(c))
      && (|e| == |s| ==> forall c :: c in s ==> Plain(c))
      && ((forall c :: c in s ==> Plain(c)) ==> e == s)
  {
    if s != [] {
      EscapedLength(s[1..]);
      assert s == [s[0]] + s[1..];
      if forall c :: c in s ==> Plain(c) {
        assert Plain(s[0]) && Escaped('\"', s[0]) == [s[0]];
      }
    }
  }

  lemma QuotedLength(s: string)
    requires forall c :: c in s ==> NoQuote(c)
    ensures var e := Filter(ShowString(s), ch => NoQuote(ch));
      && |e| >= |s| && (|e| == |s| ==> forall c :: c in s ==> Plain(c))
      && ((forall c :: c in s ==> Plain(c)) ==> e == s)
  {
    var keep := ch => NoQuote(ch);
    var e := FlatMap(s, c => Escaped('\"', c));
    EscapedLength(s);
    FilterConcat("\"" + e, "\"", keep);
    FilterConcat("\"", e, keep);
    FilterAll(e, keep);
    assert Filter("\"", keep) == [];
  }

  lemma SymbolLength(c: char)
    requires NoQuote(c)
    ensures var e := Filter(ShowChar(c), ch => NoQuote(ch));
      |e| >= 1 && (|e| == 1 <==> Plain(c)) && (Plain(c) ==> e == [c])
  {
    var keep := ch => NoQuote(ch);
    var e := Escaped('\'', c);
    FilterConcat("'" + e, "'", keep);
    FilterConcat("'", e, keep);
    assert Filter("'", keep) == [];
    FilterAll(e, keep);
  }

  lemma ShownParts(t: Transition)
    ensures ShowTransition(t) ==
      Filter(ShowString(t.from), ch => NoQuote(ch)) + [','] + Filter(ShowChar(t.symbol), ch => NoQuote(ch)) + [',']
      + Filter(ShowString(t.to), ch => NoQuote(ch))
  {
    var keep := ch => NoQuote(ch);
    var a, b, c := ShowString(t.from), ShowChar(t.symbol), ShowString(t.to);
    hide ShowString, ShowChar;
    FilterConcat(a + "," + b + ",", c, keep);
    FilterConcat(a + "," + b, ",", keep);
    FilterConcat(a + ",", b, keep);
    FilterConcat(a, ",", keep);
    assert Filter(",", keep) == [','];
  }

  lemma LineJoins(t: Transition, a: string, b: string, c: string)
    ensures |Line(t)| == |t.from| + |t.to| + 3
    ensures |a + [','] + b + [','] + c| == |a| + |b| + |c| + 2
    ensures a == t.from && b == [t.symbol] && c == t.to ==> a + [','] + b + [','] + c == Line(t)
  {}

  /** Without quotes, a transition is shown as in the file, or longer. */
  lemma ShowLength(t: Transition)
    requires QuoteFree(t)
    ensures |ShowTransition(t)| >= |Line(t)|
    ensures |ShowTransition(t)| == |Line(t)| ==> PlainTransition(t)
    ensures PlainTransition(t) ==> ShowTransition(t) == Line(t)
  {
    hide ShowTransition, Filter, ShowString, ShowChar, Plain, NoQuote, Line;
    ShownParts(t);
    QuotedLength(t.from);
    SymbolLength(t.symbol);
    QuotedLength(t.to);
    LineJoins(t, Filter(ShowString(t.from), ch => NoQuote(ch)), Filter(ShowChar(t.symbol), ch => NoQuote(ch)),
      Filter(ShowString(t.to), ch => NoQuote(ch)));
  }

  // ----- how the lines are shown -----

  /** The lines of the transitions as they are printed, each with its end. */
  function ShownLines(ts: seq<Transition>): string {
    if ts == [] then "" else ShowTransition(ts[0]) + (['\n'] + ShownLines(ts[1..]))
  }

  lemma {:induction false} ShowLinesText(acc: string, ts: seq<Transition>)
    ensures ShowLines(acc, ts) + ['\n'] == acc + (['\n'] + ShownLines(ts))
    decreases |ts|
  {
    hide ShowTransition;
    if ts != [] {
      ShowLinesText(acc + "\n" + ShowTransition(ts[0]), ts[1..]);
      Regroup(acc, ShowTransition(ts[0]), ShownLines(ts[1..]));
    }
  }

  lemma Regroup(a: string, b: string, c: string)
    ensures a + "\n" + b + (['\n'] + c) == a + (['\n'] + (b + (['\n'] + c)))
  {}

  lemma {:induction false} ShownNoQuote(ts: seq<Transition>)
    ensures forall c :: c in ShownLines(ts) ==> NoQuote(c)
  {
    if ts != [] {
      ShownNoQuote(ts[1..]);
      var t := ts[0];
      forall c | c in ShowTransition(t) ensures NoQuote(c) {
        FilterIn(ShowString(t.from) + "," + ShowChar(t.symbol) + "," + ShowString(t.to), ch => NoQuote(ch), c);
      }
    }
  }

  lemma {:induction false} LinesHold(ts: seq<Transition>, t: Transition, c: char)
    requires t in ts && (c in t.from || c == t.symbol || c in t.to)
    ensures c in FileLines(ts)
  {
    if t != ts[0] { LinesHold(ts[1..], t, c); }
  }

  lemma {:induction false} ShownLength(ts: seq<Transition>)
    requires forall t :: t in ts ==> QuoteFree(t)
    ensures |ShownLines(ts)| >= |FileLines(ts)|
    ensures |ShownLines(ts)| == |FileLines(ts)| ==> forall t :: t in ts ==> PlainTransition(t)
    ensures (forall t :: t in ts ==> PlainTransition(t)) ==> ShownLines(ts) == FileLines(ts)
  {
    hide ShowTransition, Line, QuoteFree, PlainTransition;
    if ts != [] {
      ShowLength(ts[0]);
      ShownLength(ts[1..]);
      assert ts == [ts[0]] + ts[1..];
    }
  }

  /** The printed lines are those of the file exactly if every transition is plain. */
  lemma ShownIsFile(ts: seq<Transition>)
    ensures ShownLines(ts) == FileLines(ts) <==> forall t :: t in ts ==> PlainTransition(t)
  {
    hide ShownLines, FileLines;
    if ShownLines(ts) == FileLines(ts) {
      ShownNoQuote(ts);
      forall t | t in ts ensures QuoteFree(t) {
        forall c | c in t.from || c == t.symbol || c in t.to ensures NoQuote(c) { LinesHold(ts, t, c); }
      }
      ShownLength(ts);
    } else if forall t :: t in ts ==> PlainTransition(t) {
      ShownLength(ts);
    }
  }

  // ----- the round trip -----

  lemma PrintedText(m: FSM)
    ensures ShowFSM(m) + ['\n'] == Intercalate(m.states) +
      (['\n'] + (m.initialState + (['\n'] + (Intercalate(m.finalStates) + (['\n'] + ShownLines(m.transitions))))))
  {
    hide ShownLines, ShowLines, Intercalate;
    ShowLinesText(Intercalate(m.states) + "\n" + m.initialState + "\n" + Intercalate(m.finalStates), m.transitions);
  }

  lemma Cancel(a: string, b: string, c: string)
    ensures a + b == a + c <==> b == c
  {
    if a + b == a + c { assert (a + b)[|a|..] == (a + c)[|a|..]; }
  }

  lemma PrintedIsFile(m: FSM)
    ensures ShowFSM(m) + ['\n'] == FileText(m) <==> ShownLines(m.transitions) == FileLines(m.transitions)
  {
    hide ShownLines, FileLines, ShowFSM, Intercalate;
    PrintedText(m);
    var p, q := ShownLines(m.transitions), FileLines(m.transitions);
    var p3, q3 := ['\n'] + p, ['\n'] + q;
    var p2, q2 := Intercalate(m.finalStates) + p3, Intercalate(m.finalStates) + q3;
    var p1, q1 := m.initialState + (['\n'] + p2), m.initialState + (['\n'] + q2);
    Cancel(['\n'], p, q);
    Cancel(Intercalate(m.finalStates), p3, q3);
    Cancel(['\n'], p2, q2);
    Cancel(m.initialState, ['\n'] + p2, ['\n'] + q2);
    Cancel(['\n'], p1, q1);
    Cancel(Intercalate(m.states), ['\n'] + p1, ['\n'] + q1);
  }

  /** An automaton of known characters reads back from its printed form and a line end exactly if the format
      can express it and no transition has a quote, a backslash or a line end. */
  lemma RoundTripExactly(m: FSM)
    requires forall t :: t in m.transitions ==> KnownTransition(t)
    ensures ParseFSM(ShowFSM(m) + "\n") == Right(m) <==> Readable(m) && forall t :: t in m.transitions ==> PlainTransition(t)
  {
    hide ParseFSM, ShowFSM, FileText, Readable, PlainTransition, KnownTransition;
    ParseExactly(ShowFSM(m) + "\n", m);
    PrintedIsFile(m);
    ShownIsFile(m.transitions);
  }

  /** The printed form of such an automaton can be read in exactly one way. */
  lemma PrintThenParse(m: FSM)
    requires Readable(m) && forall t :: t in m.transitions ==> KnownTransition(t) && PlainTransition(t)
    ensures FsmParser(ShowFSM(m) + "\n") == [m] && ParseFSM(ShowFSM(m) + "\n") == Right(m)
  {
    hide ShowFSM, Readable, PlainTransition, KnownTransition, FsmParser;
    RoundTripExactly(m);
    Unambiguous(ShowFSM(m) + "\n");
  }
}
