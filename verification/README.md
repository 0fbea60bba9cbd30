# Models of six school-project programs

Six programs of this repository, with the theorems that say they do what they are for.

**Reed-Solomon codec with interleaver** (`BMS/proj1`). Bytes form the field GF(256); multiplication is
iterated shift-and-reduce, so it is linear in exclusive-or, and a group argument on the order of alpha gives
every nonzero byte one logarithm (`Field`). `BitPoly` says which field it is: products are remainders of
products of polynomials with coefficients 0 and 1. On top of it are the ring of coefficient sequences
(`Poly`), Massey's bound and the invariant of the Berlekamp-Massey loop (`Massey`), locators, evaluators and
Forney's formula (`Locator`), code words and syndromes (`Word`), the generator polynomial and division by it
(`Product`, `Division`), the repair of a word (`Repair`), when what comes out of it is a code word
(`Verdict`), and what the decoder makes of any word, correctable or not (`Decoding`). `Codec` is the codec
as the program has it, a class whose methods fill tables and arrays in place; `Interleaver` is the geometry
of the encoded file, `Layout` what is stored where, also when two symbols share an index, and `FileCodec`
the encoder and the decoder with their output buffers. The end-to-end theorem is about running them one
after the other: up to 54 errors in every code word are repaired, so every burst of up to 54 * (blocks - 1)
bytes is, or of 54 bytes if there is one code word.

**River crossing** (`IOS/proj2`). `River` is the protocol as a transition system: a program counter for every
process, each wait and each post a step of its own, and a schedule that picks who steps. `Ferry` says what
the output is meant to describe, as a machine that reads the printed lines. `Tally` counts processes by
where they stand, `Crossing` states the invariant and proves it for silent steps, `Voyage` for printing
steps. `Manifest` restates the result in terms of the lines alone, and `Outcome` has termination, progress,
mutual exclusion and the parity argument.

**DFA minimizer** (`FLP`). Pure functions over lists: completion, refinement of state pairs, numbering of
classes, removal of the sink and of unreachable states (`Lists`, `Automaton`, `Classes`, `Grouping`,
`Minimize`, `Trim`). `Numbering` and `Naming` say which number every class gets, and `Answer` spells out the
two automata that are printed, name by name and in order. `FsmText` and `FsmPrint` are the reader, where a
parser returns all its readings, and the printer, and `FsmForm` has the characters that are printed and one
file spelled out.

**Mesh multiplication and enumeration sort** (`PRL`). Processes with program counters over channels keyed by
source, destination and tag, which keep their order (section 3.5 of MPI 3.1) and are buffered (`Fifo`,
`Mesh`, `MeshProduct`, `Enumeration`, `Ranks`, `EnumerationSort`). `MeshResult` states what the mesh
computes in terms of the lists of numbers it read, and `Matrices` the laws that fix the product.

**Tickets** (`POS/proj1`). Threads with program counters over a mutex, a condition variable that may wake
anybody at any time, and two counters whose increments are a load and a store (`Tickets`); `Turns` shows
that every run can still be finished.

`Wrappers` and `Sets` are shared helpers. Some results are negative. Not every file whose size is a positive
multiple of 146 survives the round trip through the codec: none does whose last chunk is not zero.
`FileCodec.LosslessSizes` says exactly for which sizes all files survive, and `FileCodec.OneChunk` exactly
which files of 146 bytes do. Beyond 54 errors no repair is promised; `Verdict.ResultIsCodeword` says exactly
when what the decoder leaves is a code word, and what it cannot correct it leaves as it is. Automata with
quotes, backslashes or line ends in their transitions are printed so that they do not read back:
`FsmPrint.RoundTripExactly`. With an odd number of hackers and as many serfs the river crossing strands two
people: `Outcome.NobodyStranded` says exactly when nobody is stranded.

## Model

| member | source | states |
|---|---|---|
| Field.NoShorterPeriod | BMS/proj1/lib/galois.c:73-85 | no power of alpha below 255 is one again, so the exponent table has 255 different entries |
| Field.ValueCovered | BMS/proj1/lib/galois.c:87-94 | every nonzero byte is found by the logarithm search |
| Field.LogUnique | BMS/proj1/lib/galois.c:87-94 | the logarithm of a nonzero byte is the only exponent in 0..254 that gives it |
| Field.MulIsIter | BMS/proj1/lib/galois.c:98-105 | a table product is shift-and-reduce iterated on one factor, the logarithm of the other being the count |
| Field.MulAssoc | BMS/proj1/lib/galois.c:98-105 | table products are associative |
| Field.MulDistrib | BMS/proj1/lib/galois.c:98-105 | table products distribute over exclusive-or |
| Field.MulInv | BMS/proj1/lib/galois.c:108-111 | the table inverse of a nonzero byte is its inverse |
| Field.InvZero | BMS/proj1/lib/galois.c:108-111 | looked up for zero, which has no inverse, the result is one |
| BitPoly.PowersOfTwo | BMS/proj1/lib/galois.c:60-95 | the first eight powers of alpha are 1, 2, 4 to 128, and the ninth, the first to be reduced, is 29 |
| BitPoly.MulIsRemainder | BMS/proj1/lib/galois.c:98-105 | a table product is the remainder of the product of the two bytes as polynomials, divided by x^8 + x^4 + x^3 + x^2 + 1 |
| BitPoly.ResidueUnique | BMS/proj1/lib/galois.c:98-105 | quotient and remainder by that polynomial are unique |
| BitPoly.MulExactly | BMS/proj1/lib/galois.c:98-105 | so a byte is the table product exactly if it is that remainder |
| Codec.Rscode.InitExpTable | BMS/proj1/lib/galois.c:60-95 | the two tables hold the powers of alpha, twice over, and the logarithms; the first power is 1 and every next one is the one before times x, reduced by x^8 + x^4 + x^3 + x^2 + 1 |
| Codec.Rscode.FillPowers | BMS/proj1/lib/galois.c:66-85 | the shift of eight one-bit variables computes the powers of alpha, each the one before times x, reduced by that polynomial |
| Codec.Rscode.SearchPower | BMS/proj1/lib/galois.c:88-93 | the search for a byte in the power table ends at its logarithm |
| Codec.Rscode.GMult | BMS/proj1/lib/galois.c:98-105 | the lookups are in range and give the field product, which is the remainder that BitPoly.MulExactly determines |
| Codec.Rscode.GInv | BMS/proj1/lib/galois.c:108-111 | the lookup is in range and gives the field inverse |
| Codec.Rscode.MulZPoly | BMS/proj1/lib/berlekamp.c:221-226 | shifting in place multiplies by z and drops the top coefficient |
| Codec.Rscode.MultPolys | BMS/proj1/lib/berlekamp.c:127-147 | scaling, shifting and adding in place computes the convolution |
| Product.EvalProduct | BMS/proj1/lib/berlekamp.c:127-147 | the value of a convolution is the product of the values |
| Codec.Rscode.ComputeGenpoly | BMS/proj1/lib/rs.c:153-170 | the generator is monic of degree nbytes and is the product of x + alpha^i for i from 1 to nbytes |
| Product.RootProductZero | BMS/proj1/lib/rs.c:161-169 | that product is zero at alpha^1 to alpha^nbytes |
| Division.DivisionStep | BMS/proj1/lib/rs.c:187-193 | one turn of the shift register is one step of division by the generator |
| Division.SystematicCodeword | BMS/proj1/lib/rs.c:181-199 | a message followed by its remainder is a code word |
| Division.SystematicUnique | BMS/proj1/lib/rs.c:181-199 | a message has only one code word that starts with it |
| Codec.Rscode.ComputeParity | BMS/proj1/lib/rs.c:183-196 | the parity bytes are the remainder of message * x^109 by the generator |
| Codec.Rscode.BuildCodeword | BMS/proj1/lib/rs.c:88-96 | the destination is the message, then the parity bytes in reverse, and nothing else changes |
| Codec.Rscode.EncodeData | BMS/proj1/lib/rs.c:181-199 | the destination starts with the message and is a code word |
| Codec.Rscode.DecodeData | BMS/proj1/lib/rs.c:106-116 | the syndrome bytes are the values of the received word at alpha^1 to alpha^109 |
| Codec.Rscode.CheckSyndrome | BMS/proj1/lib/rs.c:120-131 | the answer is 0 exactly if all syndrome bytes are 0 |
| Massey.MasseyBound | BMS/proj1/lib/berlekamp.c:83-95 | two recurrences of which one fails where the other holds have lengths that add up to more than the index |
| Massey.RoundQuiet | BMS/proj1/lib/berlekamp.c:81-101 | a round without discrepancy keeps the loop invariant |
| Massey.RoundAbsorb | BMS/proj1/lib/berlekamp.c:83-101 | a corrected round that keeps the length keeps the loop invariant, and the recurrence stays a shortest one |
| Massey.RoundGrow | BMS/proj1/lib/berlekamp.c:83-101 | a corrected round that grows the length keeps the loop invariant, and the new recurrence is a shortest one |
| Codec.Rscode.ComputeDiscrepancy | BMS/proj1/lib/berlekamp.c:182-190 | the sum is the coefficient of recurrence times syndrome at the index |
| Codec.Rscode.Round | BMS/proj1/lib/berlekamp.c:79-102 | one round takes the loop invariant from n to n + 1, in all branches, and does to recurrence, correction and length what the algorithm prescribes |
| Codec.Rscode.ModifiedBerlekampMassey | BMS/proj1/lib/berlekamp.c:63-108 | Lambda is a shortest recurrence of all syndromes, namely the one the algorithm finds, and Omega is Lambda times the syndrome, cut off at 109 |
| Decoding.FoundIsKey | BMS/proj1/lib/berlekamp.c:63-124 | the recurrence found is a shortest one, whatever the syndrome |
| Codec.Rscode.ComputeModifiedOmega | BMS/proj1/lib/berlekamp.c:115-124 | Omega is the low part of the product |
| Word.SyndromeOfErrors | BMS/proj1/lib/rs.c:106-116 | the syndrome of a received word depends on its errors only |
| Locator.KeyEquation | BMS/proj1/lib/berlekamp.c:110-124 | locator times syndrome is the evaluator, for any errors |
| Locator.LocatorGenerates | BMS/proj1/lib/berlekamp.c:61-104 | the true locator is a recurrence of the syndromes |
| Locator.RecurrenceVanishes | BMS/proj1/lib/berlekamp.c:61-104 | a recurrence that is short enough is zero at every error location |
| Locator.ManyRoots | BMS/proj1/lib/berlekamp.c:236-254 | a polynomial with more roots than its degree is zero |
| Locator.LocatorUnique | BMS/proj1/lib/berlekamp.c:61-104 | with at most half the syndromes' number of errors, a recurrence as short as the locator is the locator |
| Word.ShortestIsLocator | BMS/proj1/lib/berlekamp.c:61-104 | at up to 54 errors a shortest recurrence is the locator of the errors |
| Locator.LocatorRoots | BMS/proj1/lib/berlekamp.c:236-254 | the roots of the locator are exactly the inverse error locations |
| Codec.Rscode.LambdaAt | BMS/proj1/lib/berlekamp.c:243-247 | the sum over exponents modulo 255 is the value of Lambda |
| Codec.Rscode.FindRoots | BMS/proj1/lib/berlekamp.c:236-254 | the locations stored are exactly the roots, each once |
| Locator.ErrorValue | BMS/proj1/lib/berlekamp.c:302-312 | Omega divided by the slope of Lambda at an inverse location is the error there |
| Codec.Rscode.OmegaAt | BMS/proj1/lib/berlekamp.c:302-304 | the sum is the value of Omega at the inverse location |
| Codec.Rscode.SlopeAt | BMS/proj1/lib/berlekamp.c:307-310 | the sum over odd powers is the formal derivative of Lambda at the inverse location |
| Repair.RootsAreErrors | BMS/proj1/lib/berlekamp.c:236-254 | within the radius the roots are exactly the damaged positions |
| Repair.RepairedIsCodeword | BMS/proj1/lib/berlekamp.c:297-316 | within the radius every repaired byte is the byte of the code word |
| Codec.Rscode.RepairBytes | BMS/proj1/lib/berlekamp.c:297-316 | exactly the bytes at the locations change, each by its error value |
| Codec.Rscode.CorrectErrors | BMS/proj1/lib/berlekamp.c:270-323 | every word, however damaged: 1 is returned exactly if there are roots and all of them are locations of the word; then every byte at a root changes by its error value and no other byte does; otherwise the word stays as it is; up to 54 wrong bytes are repaired; whether the result is a code word is told from the roots |
| Decoding.RepairedInRadius | BMS/proj1/lib/berlekamp.c:270-323 | a word with up to 54 wrong bytes becomes its code word |
| Decoding.OutsideStays | BMS/proj1/lib/berlekamp.c:290-296 | a word whose syndrome is that of up to 54 errors, one of them beyond the word, stays as it is |
| Verdict.RootsMatchLength | BMS/proj1/lib/berlekamp.c:287-317 | with as many roots as the recurrence is long, removing the errors found leaves a code word, whatever the number of errors |
| Verdict.ResultIsCodeword | BMS/proj1/lib/berlekamp.c:287-317 | the repaired word is a code word exactly if the locator found is a recurrence as long as it has roots |
| Interleaver.MapInRange | BMS/proj1/Encoder.cpp:68-75 | every symbol of every code word has an index inside the encoded file |
| Interleaver.MapOfSlot | BMS/proj1/Encoder.cpp:51-75 | every index of the encoded file belongs to a symbol |
| Interleaver.SlotOfMap | BMS/proj1/Decoder.cpp:80-93 | the symbol of an index is recovered from the index |
| Interleaver.MapInjective | BMS/proj1/Encoder.cpp:68-75 | two symbols never share an index |
| Interleaver.Spacing | BMS/proj1/Encoder.cpp:68-75 | symbols of one code word that are n apart are at least n * (blocks - 1) apart in the file |
| Interleaver.StrideApart | BMS/proj1/Encoder.cpp:68-75 | the same with distance one if there is only one code word |
| Interleaver.BurstSpread | BMS/proj1/Encoder.cpp:68-75 | a burst of t * (blocks - 1) bytes, or t bytes if there is one code word, hits every code word at most t times |
| FileCodec.Encoder.EncodeInput | BMS/proj1/Encoder.cpp:45-83 | for every size the encoded file is the layout of one code word per chunk, later symbols over earlier ones; if the last chunk is incomplete every code word can be read off |
| FileCodec.EncodingUnique | BMS/proj1/Encoder.cpp:45-83 | what the encoder promises determines every byte of the encoded file |
| FileCodec.EncodedReadable | BMS/proj1/Encoder.cpp:51-75 | if the last chunk is incomplete, no symbol lies over another |
| FileCodec.Encoder.EncodeBlock | BMS/proj1/Encoder.cpp:66-75 | one turn of the loop lays the code word of the chunk over what is there |
| FileCodec.Decoder.DeInterleave | BMS/proj1/Decoder.cpp:78-95 | the code words are gathered one after the other; for a multiple of 255 bytes the last one stays zero |
| FileCodec.Decoder.DecodeWord | BMS/proj1/Decoder.cpp:66-70 | any word, however damaged, becomes what decoding makes of it, a word within half the distance of a code word that code word, a word given up on itself; what is before and after it is untouched |
| FileCodec.Decoder.DecodeInput | BMS/proj1/Decoder.cpp:51-76 | the data parts of the decoded words are written one after the other, those given up on as received; a file close to an encoding, in every code word, is written out as the file encoded |
| FileCodec.DecodingUnique | BMS/proj1/Decoder.cpp:51-95 | what the decoder promises determines every byte it writes, whatever it receives |
| FileCodec.CloseDecodes | BMS/proj1/Decoder.cpp:51-76 | that promise alone gives back a file from anything close to its encoding |
| Decoding.ZeroSyndromeStays | BMS/proj1/Decoder.cpp:69-70 | with a zero syndrome the correction would find no root, so skipping it is right |
| Decoding.ZeroSyndromeAlone | BMS/proj1/Decoder.cpp:69-70 | a word with a zero syndrome is within 54 errors of no other code word |
| FileCodec.BurstClose | BMS/proj1/Encoder.cpp:45-83 | a burst of up to 54 * (blocks - 1) bytes, or 54 if there is one code word, leaves every code word within 54 errors |
| FileCodec.SendThroughBurst | BMS/proj1/Decoder.cpp:51-95 | encoding, damaging by any such burst and decoding gives back the file |
| FileCodec.RoundTrip | BMS/proj1/Decoder.cpp:51-95 | without damage the file comes back if its last chunk is incomplete or it is all zero, does not if its last chunk is complete and not zero, and a file of 146 bytes comes back exactly if it is zero |
| FileCodec.ZerosSurvive | BMS/proj1/Encoder.cpp:45-83 | a file of zeros comes back, whatever its size |
| FileCodec.NonzeroEndLost | BMS/proj1/Decoder.cpp:78-95 | a file with a complete last chunk that is not zero never comes back |
| FileCodec.OneChunk | BMS/proj1/Decoder.cpp:78-95 | a file of one complete chunk comes back exactly if it is zero |
| FileCodec.LosslessSizes | BMS/proj1/Encoder.cpp:51-54 | every file of a size comes back if the size is zero or no multiple of 146; of every other size there is a file that never does |
| Voyage.InitInv | IOS/proj2/rivercrossing.c:250-270 | the initial semaphores and counters satisfy the invariant |
| Crossing.StepLock | IOS/proj2/rivercrossing.c:127-222 | taking or releasing EXCLUSIVE keeps the invariant, wherever the process stands |
| Crossing.StepAtMolo | IOS/proj2/rivercrossing.c:131 | taking the pier token keeps the invariant |
| Voyage.StepCounting | IOS/proj2/rivercrossing.c:132-137 | counting a person keeps the invariant; the ferry accepts the line, and a completed group gets its captain |
| Voyage.StepDeciding | IOS/proj2/rivercrossing.c:138-162 | the decision agrees with whether a group was completed |
| Crossing.StepPassing | IOS/proj2/rivercrossing.c:161-162 | without a group the pier token is passed on |
| Crossing.StepLoadHacker | IOS/proj2/rivercrossing.c:143-156 | each post to the hackers is for a seat of the boat |
| Crossing.StepLoadSerf | IOS/proj2/rivercrossing.c:149-156 | each post to the serfs is for a seat of the boat |
| Voyage.StepLoadLast | IOS/proj2/rivercrossing.c:143-160 | with the last post the group leaves the pier counts and its founder is captain |
| Crossing.StepAdmitted | IOS/proj2/rivercrossing.c:165-166 | only as many are admitted as seats were posted |
| Voyage.StepBoarding | IOS/proj2/rivercrossing.c:167-177 | boarding is accepted, and with the fourth the captain is aboard |
| Crossing.StepOpenBoardingLast | IOS/proj2/rivercrossing.c:171-176 | the barrier opens for four and the shared counter is free for the next use |
| Voyage.StepAnnouncing | IOS/proj2/rivercrossing.c:180-189 | an announcement is accepted; it says captain for the captain only |
| Crossing.StepAtLanding | IOS/proj2/rivercrossing.c:191-196 | who passes the barrier has announced, and the captain goes on to wake four |
| Crossing.StepSailing | IOS/proj2/rivercrossing.c:192-197 | each wake-up is one of the four that are owed |
| Voyage.StepLanding | IOS/proj2/rivercrossing.c:200-210 | landing is accepted, and with the fourth the voyage is over |
| Crossing.StepFreeing | IOS/proj2/rivercrossing.c:205-209 | the last to land hands the pier token back |
| Crossing.StepFinishingLast | IOS/proj2/rivercrossing.c:211-217 | the last process to be counted opens the final barrier |
| Voyage.StepPrinting | IOS/proj2/rivercrossing.c:219-222 | who reports its end finds everybody ashore |
| Voyage.Step | IOS/proj2/rivercrossing.c:122-225 | every step of every process keeps the invariant, and the ferry accepts what it prints |
| Voyage.Refines | IOS/proj2/rivercrossing.c:122-225 | for all people and all schedules the printed lines are a run of the ferry, and the shared state agrees with it |
| Manifest.OutputOrderly | IOS/proj2/rivercrossing.c:112-222 | no line comes before its phase: four board, four announce, one of them captain, namely who waited last, four land, then the next may join; nobody finishes before all landed; every boat has an even number of hackers; the numbers on a line are those of the hackers and serfs on the pier that the lines before it tell |
| Outcome.NoGroupLeft | IOS/proj2/rivercrossing.c:139-162 | after a decision each count on the pier is at most 3 and not both are at least 2 |
| Outcome.MutualExclusion | IOS/proj2/rivercrossing.c:127-222 | at most one process is between a wait and a post of EXCLUSIVE |
| Outcome.Terminates | IOS/proj2/rivercrossing.c:122-225 | no schedule of n processes has more than n * (n + 44) steps |
| Outcome.StuckNumbers | IOS/proj2/rivercrossing.c:122-225 | no voyage stops half way: who waits when nobody can step waits on the pier, or at the end for those who do |
| Outcome.FinalState | IOS/proj2/rivercrossing.c:122-225 | where nobody can step, p / 2 voyages took place; for even p all are done, for odd p one of each kind is left and nobody is done |
| Outcome.NobodyStranded | IOS/proj2/rivercrossing.c:242-245 | everybody finishes exactly if p is even |
| Automaton.WellComplete | FLP/Minimize.hs:37-51 | the completion has a transition for every state and symbol, and no others |
| Automaton.WellAccepts | FLP/Minimize.hs:37-51 | completion keeps the words accepted from every state |
| Classes.LastSpec | FLP/Minimize.hs:58-89 | the refinement ends in a fixpoint that keeps every pair of states with the same words |
| Classes.FixpointSound | FLP/Minimize.hs:58-89 | pairs in a fixpoint accept the same words |
| Classes.EqualStatesExact | FLP/Minimize.hs:54-89 | the fixpoint is exactly the pairs of states that accept the same words |
| Grouping.MinRepEqual | FLP/Minimize.hs:95-96 | two states have the same representative exactly if they are related |
| Grouping.ShowInjective | FLP/Minimize.hs:101-105 | different class numbers are shown differently |
| Grouping.NewStatesExact | FLP/Minimize.hs:92-105 | sorting by representative, grouping neighbours and numbering gives two states the same name exactly if they are related |
| Numbering.ShowNumeral | FLP/Minimize.hs:101-105 | a shown number is its decimal numeral, digits without a leading zero |
| Numbering.LeqBefore | FLP/Minimize.hs:93-96 | names are compared character by character, a beginning of a name coming first |
| Numbering.NewStatesNumber | FLP/Minimize.hs:92-105 | a name gets the numeral of one more than the number of classes whose least name comes before its class |
| Minimize.MergedDeterministic | FLP/Minimize.hs:119-130 | the merged automaton has at most one transition for every state and symbol, between its states |
| Minimize.MergedMoves | FLP/Minimize.hs:127-130 | the merged automaton moves between classes as the original between states |
| Minimize.MergedAccepts | FLP/Minimize.hs:117-134 | merging keeps the words accepted from every state |
| Minimize.WithoutAccepts | FLP/Minimize.hs:138-147 | removing a sink keeps the words accepted from every state |
| Minimize.LanguagePreserved | FLP/Minimize.hs:117-147 | minimization keeps the accepted words |
| Minimize.Distinguishable | FLP/Minimize.hs:117-147 | two different states of the result are separated by some word |
| Naming.ClassNumbers | FLP/Minimize.hs:92-105 | the new name of a state is the decimal numeral of one more than the number of classes of states with the same words whose least name comes before the least name of its own class |
| Naming.MergedNumerals | FLP/Minimize.hs:117-134 | the states of the merged automaton are exactly the numerals from 1 to the number of classes |
| Naming.MergedStatesInOrder | FLP/Minimize.hs:117-134 | its states are in ascending order, and so are its transitions by source, symbol and target |
| Naming.MergedInitialAndFinals | FLP/Minimize.hs:121-126 | its initial state is the new name of the old one, its final states are the new names of the old ones, by first occurrence |
| Answer.CompletedExactly | FLP/Minimize.hs:37-51 | SINK is added, last, exactly if a transition is missing; it accepts nothing and no other state changes what it accepts |
| Answer.ReducedExactly | FLP/Minimize.hs:117-147 | the reduced automaton entry by entry: the numerals of the classes that accept something, the moves between them, the initial and the final states, all in their order |
| Trim.ReachableSpec | FLP/Minimize.hs:28-36 | the closure is the set of states that some word reaches |
| Trim.TrimmedStates | FLP/Minimize.hs:20-26 | the states left are exactly the reachable ones, each once |
| Trim.TrimmedAccepts | FLP/Minimize.hs:19-36 | removing unreachable states keeps the accepted words |
| Trim.MinimalLanguage | FLP/Main.hs:30-33 | minimization and trimming keep the accepted words |
| Trim.AllReachable | FLP/Minimize.hs:19-36 | every state of the final automaton is reached by some word |
| Trim.DeadIsSink | FLP/Minimize.hs:111-114 | before the sink is removed, a state that accepts nothing is a sink |
| Trim.NoSmaller | FLP/Main.hs:30-33 | every automaton that accepts the same words has at least as many states |
| Answer.MinimalExactly | FLP/Minimize.hs:19-36 | the trimmed automaton entry by entry: what some word leads to in the reduced one, all lists in ascending order |
| FsmText.StatesScan | FLP/Parser/FSM.hs:33-35 | all readings of a name list but the longest die at the line end |
| FsmText.Unambiguous | FLP/Parser/FSM.hs:16-48 | a text has at most one reading, found from left to right |
| FsmText.ParseExactly | FLP/Parser/FSM.hs:11-48 | a text, any text, reads as an automaton exactly if it is that automaton in the file format: nonempty names without separators, any symbols, the alphabet of the transitions |
| FsmForm.AlphabetExactly | FLP/Parser/FSM.hs:26-28 | the alphabet that is read has every symbol of the transitions once, in ascending order |
| FsmForm.ExampleReads | FLP/Parser/FSM.hs:16-48 | a file of five lines, given as text, is read as the automaton it is meant to be, and that is printed as this text |
| FsmForm.ShownExactly | FLP/Type/FSM.hs:18-20 | the printed form of every transition, character by character: what becomes of quotes, backslashes and line ends in names and in symbols |
| FsmPrint.ShowLength | FLP/Type/FSM.hs:18-20 | without quotes in it, a transition is shown as in the file exactly if it has no backslash and no line end, and longer otherwise |
| FsmPrint.ShownIsFile | FLP/Type/FSM.hs:33-38 | the printed lines are those of the file exactly if no transition has a quote, a backslash or a line end |
| FsmPrint.RoundTripExactly | FLP/Type/FSM.hs:33-38 | printing and reading gives back the automaton exactly if the format can express it and its transitions have no such character |
| FsmPrint.PrintThenParse | FLP/Parser/FSM.hs:11-48 | such a printed automaton and a line end can be read in exactly one way |
| MeshProduct.SentStep | PRL/proj2/mm.cpp:98-170 | a step sends exactly the next value that its channel is meant to carry |
| MeshProduct.ReceivedStep | PRL/proj2/mm.cpp:120-178 | a step receives on exactly the channel it reads |
| MeshProduct.LocalStep | PRL/proj2/mm.cpp:124-168 | the local variables, the partial sum among them, stay what they should be |
| MeshProduct.RunInv | PRL/proj2/mm.cpp:52-194 | in every interleaving every channel holds the part of its values that was sent and not yet received |
| MeshResult.RowsCarried | PRL/proj2/mm.cpp:148-164 | in row r, what comes from the left is mat1[r * n + i], i being the turn of the loop |
| MeshResult.ColumnsCarried | PRL/proj2/mm.cpp:155-167 | in column c, what comes from above is mat2[i * cols + c] |
| MeshProduct.StuckDone | PRL/proj2/mm.cpp:52-194 | no deadlock: where nobody can step, everybody is done |
| MeshResult.AcceptedExactly | PRL/proj2/mm.cpp:64-96 | the program goes on exactly if rows and columns are positive and the two quotients that give the inner dimension agree |
| MeshResult.ProductComputed | PRL/proj2/mm.cpp:87-179 | every interleaving that cannot go on has, at process 0, the product: entry r * cols + c is the sum over k of mat1[r * n + k] * mat2[k * cols + c], n being the quotient |
| MeshResult.IdentityComputed | PRL/proj2/mm.cpp:87-179 | multiplying by the identity matrix gives back the other matrix, in every interleaving |
| Matrices.CellLinear | PRL/proj2/mm.cpp:146-160 | the entries of a product are linear in the left matrix |
| Matrices.UnitTimes | PRL/proj2/mm.cpp:146-160 | a left matrix with a single one, at row p and column q, moves row q of the right matrix to row p |
| MeshProduct.Terminates | PRL/proj2/mm.cpp:52-194 | every interleaving has at most the stated number of steps, a polynomial in rows, columns and the inner dimension |
| Ranks.RankGrows | PRL/proj1/es.cpp:106-112 | the comparison counts a number exactly if it comes before the own one in stable order |
| Ranks.RankOrder | PRL/proj1/es.cpp:106-112 | ranks follow the stable order and differ |
| Ranks.RankTaken | PRL/proj1/es.cpp:106-116 | every rank from 1 to n is taken |
| Ranks.SortedAscending | PRL/proj1/es.cpp:74-80 | the numbers by rank ascend, and equal ones keep their order |
| Ranks.SortedPermutation | PRL/proj1/es.cpp:74-80 | the numbers by rank are a permutation of the input |
| EnumerationSort.SentStep | PRL/proj1/es.cpp:55-126 | a step sends exactly the next value that its channel is meant to carry |
| EnumerationSort.LocalStep | PRL/proj1/es.cpp:76-123 | the local variables, the rank among them, stay what they should be |
| EnumerationSort.RunInv | PRL/proj1/es.cpp:30-132 | in every interleaving every channel holds the part of its values that was sent and not yet received |
| EnumerationSort.OneSource | PRL/proj1/es.cpp:116-117 | the message taken from any source can only come from the number with that rank |
| EnumerationSort.StuckSlave | PRL/proj1/es.cpp:94-127 | no deadlock: where nobody can step, every slave is done |
| EnumerationSort.SortComputed | PRL/proj1/es.cpp:74-86 | every interleaving that cannot go on leaves the master with the input in stable ascending order |
| EnumerationSort.Terminates | PRL/proj1/es.cpp:30-132 | no interleaving of n numbers has more than 3 * n * n + 8 * n + 2 steps |
| Tickets.StepInv | POS/proj1/main.c:37-141 | every step of every thread, a wake-up without a signal among them, keeps the invariant |
| Tickets.TicketSafety | POS/proj1/main.c:37-141 | at most one thread is between the end of its wait and the new counter value, tickets in use differ, and what is printed is 0, 1, 2 and so on below m |
| Tickets.AllPrinted | POS/proj1/main.c:127-141 | when all threads have returned, exactly 0 to m - 1 were printed, in order |
| Turns.StepWork | POS/proj1/main.c:37-141 | every step but the wake-up of a thread whose turn it is not brings the threads nearer to returning |
| Turns.CanPrintAll | POS/proj1/main.c:127-141 | from every state of every run there is a continuation after which all threads have returned and exactly 0 to m - 1 were printed |
| Turns.StepsBounded | POS/proj1/main.c:37-141 | a run of n threads has at most 20 * m + 5 * n steps, and 3 more for every wake-up of a thread whose turn it is not |

## Left out

- FileCodec.RoundTrip: of files of two or more complete chunks that end in a chunk of zeros and are not all zero it does not say which come back; their bytes are determined, but symbols lie over one another and words far from every code word are decoded.
- FsmPrint.RoundTripExactly: only for printable ASCII and line ends in the transitions; how other characters are shown is not part of this model.
- Turns.CanPrintAll: there is such a continuation, but not every continuation is one: no claim that waiting threads are ever woken, as the program signals without holding the mutex.
- Erasures: the only caller passes none, so the erasure locator is the constant polynomial.
- Field elements are bytes throughout, where the program also keeps them in variables of type int; array sizes are those of the program. Indices into an encoded file are assumed to fit a signed 32-bit int.
- Received files whose last code word would be shorter than its parity: the program computes a negative length there.
- Reading and writing files, debug output, the unused CRC generator.
- River crossing: forking, signals, sleeping, shared-memory setup and the text of the lines; processes and schedules are values, not classes. Processes all exist from the start, which a schedule that delays their first step covers.
- DFA minimizer: nondeterministic input, undeclared states, duplicate names and a user state called SINK are assumed absent; the reader accepts them. Library sorts are stable insertion sorts, and library sets and maps are Dafny's.
- Mesh and enumeration sort: message-passing internals, timing, file reading and printing; the number of processes is the one the input needs, and matrix values are unbounded integers.
- Tickets: errors of the thread library, random sleeps and the width of the counters.
- The remaining projects of the repository.
