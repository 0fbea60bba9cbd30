/** The alphabet of what is read, the characters of what is printed, and one file spelled out. */
module FsmForm {
  import opened Wrappers
  import opened Lists
  import opened Automaton
  import opened FsmText
  import opened FsmPrint

  // ----- the alphabet -----

  /** The alphabet that is read has every symbol of the transitions once, in ascending order. */
  lemma AlphabetExactly(ts: seq<Transition>)
    ensures forall i, j :: 0 <= i < j < |Alphabet(ts)| ==> Alphabet(ts)[i] < Alphabet(ts)[j]
    ensures forall c :: c in Alphabet(ts) <==> exists t :: t in ts && t.symbol == c
  {
    var symbols := Map(ts, (t: Transition) => t.symbol);
    var leq := (a: char, b: char) => a <= b;
    NubDistinct(symbols);
    SortDistinct(Nub(symbols), leq);
    SortAscending(Nub(symbols), leq);
    forall c
      ensures c in Alphabet(ts) <==> exists t :: t in ts && t.symbol == c
    {
      SortIn(Nub(symbols), leq, c);
      NubIn(symbols, c);
      MapIn(ts, (t: Transition) => t.symbol, c);
    }
  }

  // ----- the characters that are printed -----

  /** What is left of a character of a name: quotes go, but the backslash that goes before a double one stays. */
  function NamePiece(c: char): string {
    if c == '\"' then "\\" else if c == '\'' then "" else if c == '\\' then "\\\\" else if c == '\n' then "\\n" else [c]
  }

  /** The same for a symbol, where the single quote gets the backslash. */
  function SymbolPiece(c: char): string {
    if c == '\'' then "\\" else if c == '\"' then "" else if c == '\\' then "\\\\" else if c == '\n' then "\\n" else [c]
  }

  function NamePieces(s: string): string {
    if s == "" then "" else NamePiece(s[0]) + NamePieces(s[1..])
  }

  lemma FilterShort(c: char, d: char)
    ensures Filter([c], ch => NoQuote(ch)) == if NoQuote(c) then [c] else []
    ensures Filter([c, d], ch => NoQuote(ch)) == (if NoQuote(c) then [c] else []) + if NoQuote(d) then [d] else []
  {
    assert [c, d][1..] == [d] && [d][1..] == [] && [c][1..] == [];
  }

  lemma EscapedPiece(c: char)
    ensures Filter(Escaped('\"', c), ch => NoQuote(ch)) == NamePiece(c)
    ensures Filter(Escaped('\'', c), ch => NoQuote(ch)) == SymbolPiece(c)
  {
    FilterShort('\\', c);
    FilterShort('\\', 'n');
    FilterShort(c, c);
    hide Filter;
  }

  lemma {:induction false} PiecesShown(s: string)
    ensures Filter(FlatMap(s, c => Escaped('\"', c)), ch => NoQuote(ch)) == NamePieces(s)
  {
    hide Escaped, NamePiece, NoQuote;
    if s != [] {
      PiecesShown(s[1..]);
      EscapedPiece(s[0]);
      FilterConcat(Escaped('\"', s[0]), FlatMap(s[1..], c => Escaped('\"', c)), ch => NoQuote(ch));
      hide Filter;
    }
  }

  lemma Unquoted(q: char, s: string)
    requires !NoQuote(q)
    ensures Filter([q] + s + [q], ch => NoQuote(ch)) == Filter(s, ch => NoQuote(ch))
  {
    var keep := ch => NoQuote(ch);
    FilterConcat([q] + s, [q], keep);
    FilterConcat([q], s, keep);
    assert Filter([q], keep) == [];
  }

  /** The printed form of every transition, character by character. */
  lemma ShownExactly(t: Transition)
    ensures ShowTransition(t) == NamePieces(t.from) + "," + SymbolPiece(t.symbol) + "," + NamePieces(t.to)
  {
    hide NoQuote, Filter, NamePieces, SymbolPiece, Escaped;
    ShownParts(t);
    NameShown(t.from);
    NameShown(t.to);
    SymbolShown(t.symbol);
    hide ShowTransition, ShowString, ShowChar;
  }

  lemma NameShown(s: string)
    ensures Filter(ShowString(s), ch => NoQuote(ch)) == NamePieces(s)
  {
    PiecesShown(s);
    Unquoted('\"', FlatMap(s, c => Escaped('\"', c)));
    hide Filter, NamePieces;
  }

  lemma SymbolShown(c: char)
    ensures Filter(ShowChar(c), ch => NoQuote(ch)) == SymbolPiece(c)
  {
    EscapedPiece(c);
    Unquoted('\'', Escaped('\'', c));
    hide Filter, SymbolPiece, Escaped;
  }

  // ----- one file -----

  /** Two states, of which B is final, and the transitions A,a,B and B,a,A. */
  function Example(): FSM {
    var ts := [Transition("A", 'a', "B"), Transition("B", 'a', "A")];
    FSM(Alphabet(ts), ["A", "B"], "A", ["B"], ts)
  }

  lemma ExampleLines()
    ensures FileLines([Transition("A", 'a', "B"), Transition("B", 'a', "A")]) == "A,a,B\nB,a,A\n"
  {
    var t, u := Transition("A", 'a', "B"), Transition("B", 'a', "A");
    assert Line(t) == "A,a,B" && Line(u) == "B,a,A";
    assert [t, u][1..] == [u] && [u][1..] == [];
    hide Line;
    assert FileLines([u]) == "B,a,A\n";
  }

  lemma ExampleNames()
    ensures Intercalate(["A", "B"]) == "A,B" && Intercalate(["B"]) == "B"
  {
    assert ["A", "B"][1..] == ["B"];
  }

  lemma ExampleText()
    ensures FileText(Example()) == "A,B\nA\nB\nA,a,B\nB,a,A\n"
  {
    ExampleLines();
    ExampleNames();
    hide FileLines, Intercalate;
    var lines := "A,a,B\nB,a,A\n";
    assert "B" + (['\n'] + lines) == "B\nA,a,B\nB,a,A\n";
    assert "A" + (['\n'] + "B\nA,a,B\nB,a,A\n") == "A\nB\nA,a,B\nB,a,A\n";
    assert "A,B" + (['\n'] + "A\nB\nA,a,B\nB,a,A\n") == "A,B\nA\nB\nA,a,B\nB,a,A\n";
  }

  lemma ExampleReadable()
    ensures Readable(Example()) && forall t :: t in Example().transitions ==> PlainTransition(t)
  {
    hide Alphabet;
  }

  /** The file format on an example: this text is read as that automaton, which is printed as this text
      without its last line end. */
  lemma ExampleReads()
    ensures ParseFSM("A,B\nA\nB\nA,a,B\nB,a,A\n") == Right(Example())
    ensures ShowFSM(Example()) + ['\n'] == "A,B\nA\nB\nA,a,B\nB,a,A\n"
  {
    hide FileText, ParseFSM, ShowFSM, Readable, Example, PlainTransition;
    ExampleText();
    ExampleReadable();
    ParseExactly("A,B\nA\nB\nA,a,B\nB,a,A\n", Example());
    PrintedIsFile(Example());
    ShownIsFile(Example().transitions);
  }
}
