/**
  The three automata of test_nfa.py and what the model says about them:
  the size check of the constructor, the answers of `accepts`, and the
  subset construction and renumbering of the lecture example.
*/
module Scenarios {
  import opened Wrappers
  import opened Transitions
  import opened Lists
  import opened Simulation
  import opened SubsetConstruction
  import opened Minimization
  import opened Nfa

  // ---------------------------------------------------------------------
  // The size check

  /** test_nfa.py:69-75: a negative number of states, or of symbols, is refused. */
  method RejectsNegativeSizes() returns (r1: Result<NFA, SizeError>, r2: Result<NFA, SizeError>)
    ensures r1.Err? && r2.Err?
  {
    r1 := NFA.Create(-1, 2, {3}, {2}, map[]);
    r2 := NFA.Create(3, -1, {0}, {2}, map[]);
  }

  // ---------------------------------------------------------------------
  // The automaton of the acceptance tests

  function ExampleTable(): Table {
    map[0 := map[0 := {0}, 1 := {0, 1}], 1 := map[0 := {2}, 1 := {0}], 2 := map[]]
  }

  /** The entries of the test automaton that the acceptance tests read. */
  ghost predicate ExampleEntries(t: Table) {
    && Targets(t, 0, 0) == {0} && Targets(t, 0, 1) == {0, 1}
    && Targets(t, 1, 0) == {2} && Targets(t, 1, 1) == {0}
  }

  lemma ExampleTargets()
    ensures ExampleEntries(ExampleTable())
  {
    var t := ExampleTable();
    assert t[0] == map[0 := {0}, 1 := {0, 1}];
    assert t[1] == map[0 := {2}, 1 := {0}];
  }

  // Each move is proved on its own, from the entries it reads.

  lemma MoveFrom0On0(t: Table)
    requires Targets(t, 0, 0) == {0}
    ensures Move(t, {0}, 0) == {0}
  {
    MoveSingleton(t, 0, 0);
  }

  lemma MoveFrom0On1(t: Table)
    requires Targets(t, 0, 1) == {0, 1}
    ensures Move(t, {0}, 1) == {0, 1}
  {
    MoveSingleton(t, 0, 1);
  }

  lemma MoveFrom01On0(t: Table)
    requires Targets(t, 0, 0) == {0} && Targets(t, 1, 0) == {2}
    ensures Move(t, {0, 1}, 0) == {0, 2}
  {
    MovePair(t, 0, 1, 0);
  }

  lemma MoveFrom01On1(t: Table)
    requires Targets(t, 0, 1) == {0, 1} && Targets(t, 1, 1) == {0}
    ensures Move(t, {0, 1}, 1) == {0, 1}
  {
    MovePair(t, 0, 1, 1);
  }

  lemma RunPair(t: Table, S: set<int>, a: int, b: int)
    ensures Run(t, S, [a, b]) == Move(t, Move(t, S, a), b)
  {
    RunSnoc(t, S, [], a);
    RunSnoc(t, S, [a], b);
    assert [] + [a] == [a];
    assert [a] + [b] == [a, b];
  }

  lemma RunTriple(t: Table, S: set<int>, a: int, b: int, c: int)
    ensures Run(t, S, [a, b, c]) == Move(t, Move(t, Move(t, S, a), b), c)
  {
    RunPair(t, S, a, b);
    RunSnoc(t, S, [a, b], c);
    assert [a, b] + [c] == [a, b, c];
  }

  /** The answer on a string of digits, from the live set its symbols lead to. */
  lemma AcceptsByRun(t: Table, S: set<int>, F: set<int>, w: string, syms: seq<int>, R: set<int>)
    requires AllDigits(w) && SymbolsOf(w) == syms && Run(t, S, syms) == R
    ensures AcceptsSpec(t, S, F, w) == Ok(R * F != {})
  {
    AcceptsDigits(t, S, F, w);
  }

  // Solver scaffolding: the symbols of a short string, unfolded once here
  // so that the scenarios below do not unfold `SymbolsOf` themselves.

  /** The symbols of a string of digits of length two or three. */
  lemma SymbolsOfShort(w: string)
    requires 2 <= |w| <= 3 && AllDigits(w)
    ensures |w| == 2 ==> SymbolsOf(w) == [DigitValue(w[0]), DigitValue(w[1])]
    ensures |w| == 3 ==> SymbolsOf(w) == [DigitValue(w[0]), DigitValue(w[1]), DigitValue(w[2])]
  {
  }

  /** test_nfa.py:44-46: the empty string is rejected. */
  lemma ExampleRejectsEmpty()
    ensures AcceptsSpec(ExampleTable(), {0}, {2}, "") == Ok(false)
  {
    AcceptsEmpty(ExampleTable(), {0}, {2});
  }

  lemma RunOn00(t: Table)
    requires ExampleEntries(t)
    ensures Run(t, {0}, [0, 0]) == {0}
  {
    MoveFrom0On0(t);
    RunPair(t, {0}, 0, 0);
  }

  lemma RejectsFromRun00(t: Table)
    requires Run(t, {0}, [0, 0]) == {0}
    ensures AcceptsSpec(t, {0}, {2}, "00") == Ok(false)
  {
    assert AllDigits("00") && SymbolsOf("00") == [0, 0] by { SymbolsOfShort("00"); }
    AcceptsByRun(t, {0}, {2}, "00", [0, 0], {0});
    assert {0} * {2} == {};
  }

  /** test_nfa.py:48-50: "00" is rejected. */
  lemma ExampleRejects00(t: Table)
    requires ExampleEntries(t)
    ensures AcceptsSpec(t, {0}, {2}, "00") == Ok(false)
  {
    RunOn00(t);
    RejectsFromRun00(t);
  }

  lemma RunOn01(t: Table)
    requires ExampleEntries(t)
    ensures Run(t, {0}, [0, 1]) == {0, 1}
  {
    MoveFrom0On0(t);
    MoveFrom0On1(t);
    RunPair(t, {0}, 0, 1);
  }

  lemma RejectsFromRun01(t: Table)
    requires Run(t, {0}, [0, 1]) == {0, 1}
    ensures AcceptsSpec(t, {0}, {2}, "01") == Ok(false)
  {
    assert AllDigits("01") && SymbolsOf("01") == [0, 1] by { SymbolsOfShort("01"); }
    AcceptsByRun(t, {0}, {2}, "01", [0, 1], {0, 1});
    assert {0, 1} * {2} == {};
  }

  /** test_nfa.py:52-54: "01" is rejected. */
  lemma ExampleRejects01(t: Table)
    requires ExampleEntries(t)
    ensures AcceptsSpec(t, {0}, {2}, "01") == Ok(false)
  {
    RunOn01(t);
    RejectsFromRun01(t);
  }

  lemma RunOn10(t: Table)
    requires ExampleEntries(t)
    ensures Run(t, {0}, [1, 0]) == {0, 2}
  {
    MoveFrom0On1(t);
    MoveFrom01On0(t);
    RunPair(t, {0}, 1, 0);
  }

  lemma AcceptsFromRun10(t: Table)
    requires Run(t, {0}, [1, 0]) == {0, 2}
    ensures AcceptsSpec(t, {0}, {2}, "10") == Ok(true)
  {
    assert AllDigits("10") && SymbolsOf("10") == [1, 0] by { SymbolsOfShort("10"); }
    AcceptsByRun(t, {0}, {2}, "10", [1, 0], {0, 2});
    assert 2 in {0, 2} * {2};
  }

  /** test_nfa.py:56-58: "10" is accepted, along the path 0, 1, 2. */
  lemma ExampleAccepts10(t: Table)
    requires ExampleEntries(t)
    ensures AcceptsSpec(t, {0}, {2}, "10") == Ok(true)
  {
    RunOn10(t);
    AcceptsFromRun10(t);
  }

  lemma RunOn110(t: Table)
    requires ExampleEntries(t)
    ensures Run(t, {0}, [1, 1, 0]) == {0, 2}
  {
    MoveFrom0On1(t);
    MoveFrom01On1(t);
    MoveFrom01On0(t);
    RunTriple(t, {0}, 1, 1, 0);
  }

  lemma AcceptsFromRun110(t: Table)
    requires Run(t, {0}, [1, 1, 0]) == {0, 2}
    ensures AcceptsSpec(t, {0}, {2}, "110") == Ok(true)
  {
    assert AllDigits("110") && SymbolsOf("110") == [1, 1, 0] by { SymbolsOfShort("110"); }
    AcceptsByRun(t, {0}, {2}, "110", [1, 1, 0], {0, 2});
    assert 2 in {0, 2} * {2};
  }

  /** test_nfa.py:60-62: "110" is accepted. */
  lemma ExampleAccepts110(t: Table)
    requires ExampleEntries(t)
    ensures AcceptsSpec(t, {0}, {2}, "110") == Ok(true)
  {
    RunOn110(t);
    AcceptsFromRun110(t);
  }

  lemma RunOn111(t: Table)
    requires ExampleEntries(t)
    ensures Run(t, {0}, [1, 1, 1]) == {0, 1}
  {
    MoveFrom0On1(t);
    MoveFrom01On1(t);
    RunTriple(t, {0}, 1, 1, 1);
  }

  lemma RejectsFromRun111(t: Table)
    requires Run(t, {0}, [1, 1, 1]) == {0, 1}
    ensures AcceptsSpec(t, {0}, {2}, "111") == Ok(false)
  {
    assert AllDigits("111") && SymbolsOf("111") == [1, 1, 1] by { SymbolsOfShort("111"); }
    AcceptsByRun(t, {0}, {2}, "111", [1, 1, 1], {0, 1});
    assert {0, 1} * {2} == {};
  }

  /** test_nfa.py:64-66: "111" is rejected. */
  lemma ExampleRejects111(t: Table)
    requires ExampleEntries(t)
    ensures AcceptsSpec(t, {0}, {2}, "111") == Ok(false)
  {
    RunOn111(t);
    RejectsFromRun111(t);
  }

  /** test_nfa.py:77-78: a string of letters is the conversion error on its first character. */
  lemma ExampleRejectsLetters()
    ensures AcceptsSpec(ExampleTable(), {0}, {2}, "input string must contain integers only!")
         == Err(NotADigit('i'))
  {
    AcceptsAtBadChar(ExampleTable(), {0}, {2}, "input string must contain integers only!", 0);
  }

  /** test_nfa.py:80-86: the test automaton has rows for 0, 1 and 2, with two, two and no entries. */
  lemma ExampleStructure()
    ensures 0 in ExampleTable() && 1 in ExampleTable() && 2 in ExampleTable()
    ensures |ExampleTable()[0]| == 2 && |ExampleTable()[1]| == 2 && |ExampleTable()[2]| == 0
  {
    var t := ExampleTable();
    assert t[0].Keys == {0, 1} && t[1].Keys == {0, 1};
  }

  /** What the acceptance tests expect of an automaton with table t, start S and accept F. */
  ghost predicate ExampleAnswers(t: Table, S: set<int>, F: set<int>) {
    && AcceptsSpec(t, S, F, "") == Ok(false)
    && AcceptsSpec(t, S, F, "00") == Ok(false)
    && AcceptsSpec(t, S, F, "01") == Ok(false)
    && AcceptsSpec(t, S, F, "10") == Ok(true)
    && AcceptsSpec(t, S, F, "110") == Ok(true)
    && AcceptsSpec(t, S, F, "111") == Ok(false)
    && AcceptsSpec(t, S, F, "input string must contain integers only!") == Err(NotADigit('i'))
  }

  /** test_nfa.py:44-78: every answer the acceptance tests expect of the test automaton. */
  lemma ExampleAccepts()
    ensures ExampleAnswers(ExampleTable(), {0}, {2})
  {
    ExampleTargets();
    ExampleRejectsEmpty();
    ExampleRejects00(ExampleTable());
    ExampleRejects01(ExampleTable());
    ExampleAccepts10(ExampleTable());
    ExampleAccepts110(ExampleTable());
    ExampleRejects111(ExampleTable());
    ExampleRejectsLetters();
  }

  /**
    test_nfa.py:6-17 and 44-78: `accepts` called on the test automaton
    returns, string by string, what the tests expect.
  */
  method ExampleAnswersOfAccepts() returns (r: seq<Result<bool, Error>>)
    ensures r == [Ok(false), Ok(false), Ok(false), Ok(true), Ok(true), Ok(false), Err(NotADigit('i'))]
  {
    var a := new NFA(3, 2, {0}, {2}, ExampleTable());
    ExampleAccepts();
    var r0 := a.Accepts("");
    var r1 := a.Accepts("00");
    var r2 := a.Accepts("01");
    var r3 := a.Accepts("10");
    var r4 := a.Accepts("110");
    var r5 := a.Accepts("111");
    var r6 := a.Accepts("input string must contain integers only!");
    r := [r0, r1, r2, r3, r4, r5, r6];
  }

  // ---------------------------------------------------------------------
  // The lecture example of the subset construction (test_nfa.py:19-29, 88-127)

  function LectureTable(): Table {
    map[0 := map[0 := {0, 1}, 1 := {0}], 1 := map[1 := {2}]]
  }

  /** The composites the lecture reaches: {0}, {0, 1} and {0, 2}. */
  function LectureComposites(): set<set<int>> {
    {{0}, {0, 1}, {0, 2}}
  }

  /** The composite table test_nfa.py:99-103 expects `to_DFA` to build. */
  function LectureDfa(): CompositeTable {
    map[{0} := map[0 := {0, 1}, 1 := {0}],
        {0, 1} := map[0 := {0, 1}, 1 := {0, 2}],
        {0, 2} := map[0 := {0, 1}, 1 := {0}]]
  }

  ghost predicate LectureEntries(t: Table) {
    && Targets(t, 0, 0) == {0, 1} && Targets(t, 0, 1) == {0}
    && Targets(t, 1, 0) == {} && Targets(t, 1, 1) == {2}
    && Targets(t, 2, 0) == {} && Targets(t, 2, 1) == {}
  }

  lemma LectureTargets()
    ensures LectureEntries(LectureTable())
    ensures SymbolsBelow(LectureTable(), 2)
  {
    var t := LectureTable();
    assert t[0] == map[0 := {0, 1}, 1 := {0}];
    assert t[1] == map[1 := {2}];
    assert t.Keys == {0, 1};
  }

  /**
    The six moves of the lecture automaton, named by composite:
    A = {0}, B = {0, 1}, C = {0, 2}.
  */
  lemma LectureMoveA0(t: Table)
    requires LectureEntries(t)
    ensures Move(t, {0}, 0) == {0, 1}
  {
    MoveSingleton(t, 0, 0);
  }

  lemma LectureMoveA1(t: Table)
    requires LectureEntries(t)
    ensures Move(t, {0}, 1) == {0}
  {
    MoveSingleton(t, 0, 1);
  }

  lemma LectureMoveB0(t: Table)
    requires LectureEntries(t)
    ensures Move(t, {0, 1}, 0) == {0, 1}
  {
    MovePair(t, 0, 1, 0);
  }

  lemma LectureMoveB1(t: Table)
    requires LectureEntries(t)
    ensures Move(t, {0, 1}, 1) == {0, 2}
  {
    MovePair(t, 0, 1, 1);
  }

  lemma LectureMoveC0(t: Table)
    requires LectureEntries(t)
    ensures Move(t, {0, 2}, 0) == {0, 1}
  {
    MovePair(t, 0, 2, 0);
  }

  lemma LectureMoveC1(t: Table)
    requires LectureEntries(t)
    ensures Move(t, {0, 2}, 1) == {0}
  {
    MovePair(t, 0, 2, 1);
  }

  /** A row over two symbols whose moves are both non-empty. */
  lemma RowOfTwo(t: Table, X: set<int>, m0: set<int>, m1: set<int>)
    requires Move(t, X, 0) == m0 && Move(t, X, 1) == m1 && m0 != {} && m1 != {}
    ensures Row(t, X, 2) == map[0 := m0, 1 := m1]
  {
    assert Row(t, X, 2).Keys == {0, 1};
  }

  // Solver scaffolding: small facts about a family of three composites,
  // proved apart from the moves so that each proof obligation stays small.
  // They state nothing about the source.

  lemma ThreeCases(A: set<int>, B: set<int>, C: set<int>, X: set<int>)
    requires X in {A, B, C}
    ensures X == A || X == B || X == C
  {
  }

  lemma InThree(A: set<int>, B: set<int>, C: set<int>, X: set<int>)
    requires X == A || X == B || X == C
    ensures X in {A, B, C}
  {
  }

  lemma ThreeIn(A: set<int>, B: set<int>, C: set<int>, X: set<set<int>>)
    requires A in X && B in X && C in X
    ensures {A, B, C} <= X
  {
  }

  lemma ThreeWithin(A: set<int>, B: set<int>, C: set<int>, R: set<int>)
    requires A <= R && B <= R && C <= R
    ensures forall X :: X in {A, B, C} ==> X <= R
  {
  }

  lemma LiveKeys(t: Table, P: set<set<int>>, K: set<set<int>>)
    requires forall X :: X in K <==> X in P && !IsDead(Row(t, X, 2))
    ensures K == set X | X in P && !IsDead(Row(t, X, 2))
  {
  }

  /** K holds exactly the composites of P that meet F. */
  ghost predicate AcceptingExactly(K: set<set<int>>, P: set<set<int>>, F: set<int>) {
    forall X :: X in K <==> X in P && X * F != {}
  }

  lemma AcceptingComposites(P: set<set<int>>, F: set<int>, K: set<set<int>>)
    requires AcceptingExactly(K, P, F)
    ensures K == set X | X in P && X * F != {}
  {
  }

  /** Both moves of Y land in the family P. */
  ghost predicate MovesIn(t: Table, Y: set<int>, P: set<set<int>>) {
    Move(t, Y, 0) in P && Move(t, Y, 1) in P
  }

  /** Every member of P has both its moves in P. */
  ghost predicate AllMovesIn(t: Table, P: set<set<int>>) {
    forall Y {:trigger MovesIn(t, Y, P)} :: Y in P ==> MovesIn(t, Y, P)
  }

  /** A family whose members' moves stay inside it is closed. */
  lemma FamilyClosed(t: Table, P: set<set<int>>)
    requires AllMovesIn(t, P)
    ensures ClosedUnderMoves(t, 2, P)
  {
    forall X, s | X in P && 0 <= s < 2 && Move(t, X, s) != {}
      ensures Move(t, X, s) in P
    {
      MoveOfMember(t, P, X, s);
    }
  }

  lemma MoveOfMember(t: Table, P: set<set<int>>, X: set<int>, s: int)
    requires MovesIn(t, X, P) && 0 <= s < 2
    ensures Move(t, X, s) in P
  {
    if s == 0 {
    } else {
      assert s == 1;
    }
  }

  /** A family of at most three members whose moves stay inside it. */
  lemma ThreeAllMovesIn(t: Table, A: set<int>, B: set<int>, C: set<int>, P: set<set<int>>)
    requires MovesIn(t, A, P) && MovesIn(t, B, P) && MovesIn(t, C, P)
    requires forall Y {:trigger MovesIn(t, Y, P)} :: Y in P ==> Y == A || Y == B || Y == C
    ensures AllMovesIn(t, P)
  {
    forall Y | Y in P ensures MovesIn(t, Y, P) {
      if Y != A && Y != B {
        assert MovesIn(t, Y, P) <==> MovesIn(t, C, P);
      }
    }
  }

  /** A family of three composites whose moves stay inside it is closed. */
  lemma ThreeClosed(t: Table, A: set<int>, B: set<int>, C: set<int>)
    requires MovesIn(t, A, {A, B, C}) && MovesIn(t, B, {A, B, C}) && MovesIn(t, C, {A, B, C})
    ensures ClosedUnderMoves(t, 2, {A, B, C})
  {
    ThreeMembers(t, A, B, C, {A, B, C});
    ThreeAllMovesIn(t, A, B, C, {A, B, C});
    FamilyClosed(t, {A, B, C});
  }

  lemma ThreeMembers(t: Table, A: set<int>, B: set<int>, C: set<int>, P: set<set<int>>)
    requires P == {A, B, C}
    ensures forall Y {:trigger MovesIn(t, Y, P)} :: Y in P ==> Y == A || Y == B || Y == C
  {
  }

  /** A closed family holds every non-empty move of its members. */
  lemma ClosedStep(t: Table, X: set<set<int>>, D: set<int>, s: int)
    requires ClosedUnderMoves(t, 2, X) && D in X && 0 <= s < 2 && Move(t, D, s) != {}
    ensures Move(t, D, s) in X
  {
  }

  /** A closed family that holds A holds B = Move(A, 0) and C = Move(B, 1). */
  lemma ThreeInClosed(t: Table, A: set<int>, B: set<int>, C: set<int>, X: set<set<int>>)
    requires Move(t, A, 0) == B && Move(t, B, 1) == C && B != {} && C != {}
    requires A in X && ClosedUnderMoves(t, 2, X)
    ensures {A, B, C} <= X
  {
    ClosedStep(t, X, A, 0);
    ClosedStep(t, X, B, 1);
    ThreeIn(A, B, C, X);
  }

  /** Hence every closed family that holds A holds all three composites. */
  lemma ThreeLeast(t: Table, A: set<int>, B: set<int>, C: set<int>)
    requires Move(t, A, 0) == B && Move(t, B, 1) == C && B != {} && C != {}
    ensures forall X :: A in X && ClosedUnderMoves(t, 2, X) ==> {A, B, C} <= X
  {
    forall X | A in X && ClosedUnderMoves(t, 2, X) ensures {A, B, C} <= X {
      ThreeInClosed(t, A, B, C, X);
    }
  }

  /** A table holding the live rows of the three composites. */
  lemma ThreeRows(t: Table, A: set<int>, B: set<int>, C: set<int>, D: CompositeTable)
    requires D.Keys == {A, B, C}
    requires D[A] == Row(t, A, 2) && D[B] == Row(t, B, 2) && D[C] == Row(t, C, 2)
    requires !IsDead(D[A]) && !IsDead(D[B]) && !IsDead(D[C])
    ensures D.Keys == set X | X in {A, B, C} && !IsDead(Row(t, X, 2))
    ensures forall X :: X in D ==> D[X] == Row(t, X, 2)
  {
    forall X | X in D ensures D[X] == Row(t, X, 2) {
      RowInThree(t, A, B, C, D, X);
    }
    forall X ensures X in D.Keys <==> X in {A, B, C} && !IsDead(Row(t, X, 2)) {
      KeyInThree(t, A, B, C, D, X);
    }
    LiveKeys(t, {A, B, C}, D.Keys);
  }

  lemma KeyInThree(t: Table, A: set<int>, B: set<int>, C: set<int>, D: CompositeTable, X: set<int>)
    requires D.Keys == {A, B, C}
    requires D[A] == Row(t, A, 2) && D[B] == Row(t, B, 2) && D[C] == Row(t, C, 2)
    requires !IsDead(D[A]) && !IsDead(D[B]) && !IsDead(D[C])
    ensures X in D.Keys <==> X in {A, B, C} && !IsDead(Row(t, X, 2))
  {
    if X in {A, B, C} {
      assert X in D.Keys;
      RowInThree(t, A, B, C, D, X);
    } else {
      assert X !in D.Keys;
    }
  }

  lemma RowInThree(t: Table, A: set<int>, B: set<int>, C: set<int>, D: CompositeTable, X: set<int>)
    requires D.Keys == {A, B, C}
    requires D[A] == Row(t, A, 2) && D[B] == Row(t, B, 2) && D[C] == Row(t, C, 2)
    requires !IsDead(D[A]) && !IsDead(D[B]) && !IsDead(D[C])
    requires X in D
    ensures D[X] == Row(t, X, 2) && !IsDead(Row(t, X, 2))
  {
    ThreeCases(A, B, C, X);
  }

  /** The conjuncts of the subset construction for a family of three composites. */
  lemma ThreeComposites(t: Table, accept: set<int>, A: set<int>, B: set<int>, C: set<int>,
                        dAccept: set<set<int>>, D: CompositeTable)
    requires ClosedUnderMoves(t, 2, {A, B, C})
    requires forall X :: A in X && ClosedUnderMoves(t, 2, X) ==> {A, B, C} <= X
    requires B <= Reach(t, A) && C <= Reach(t, A)
    requires AcceptingExactly(dAccept, {A, B, C}, accept)
    requires D.Keys == set X | X in {A, B, C} && !IsDead(Row(t, X, 2))
    requires forall X :: X in D ==> D[X] == Row(t, X, 2)
    ensures IsSubsetConstruction(t, A, accept, 2, {A, B, C}, dAccept, D)
  {
    ReachContains(t, A);
    InThree(A, B, C, A);
    ThreeWithin(A, B, C, Reach(t, A));
    AcceptingComposites({A, B, C}, accept, dAccept);
  }

  /** A live row over two symbols. */
  lemma LiveRow(t: Table, X: set<int>, m0: set<int>, m1: set<int>, row: map<int, set<int>>)
    requires Move(t, X, 0) == m0 && Move(t, X, 1) == m1 && m0 != {} && m1 != {}
    requires row == map[0 := m0, 1 := m1]
    ensures row == Row(t, X, 2) && !IsDead(row)
  {
    RowOfTwo(t, X, m0, m1);
    assert 0 in row;
  }

  lemma MovesInFrom(t: Table, Y: set<int>, P: set<set<int>>, m0: set<int>, m1: set<int>)
    requires Move(t, Y, 0) == m0 && Move(t, Y, 1) == m1 && m0 in P && m1 in P
    ensures MovesIn(t, Y, P)
  {
  }

  /** The entries of the expected composite table. */
  lemma LectureDfaEntries()
    ensures LectureDfa().Keys == LectureComposites()
    ensures LectureDfa()[{0}] == map[0 := {0, 1}, 1 := {0}]
    ensures LectureDfa()[{0, 1}] == map[0 := {0, 1}, 1 := {0, 2}]
    ensures LectureDfa()[{0, 2}] == map[0 := {0, 1}, 1 := {0}]
  {
    assert 1 !in {0, 2} && 1 !in {0} && 2 !in {0};
  }

  /** States 1 and 2 are reachable from 0 in the lecture automaton. */
  lemma LectureReach(t: Table)
    requires LectureEntries(t)
    ensures {0, 1, 2} <= Reach(t, {0})
  {
    ReachContains(t, {0});
    ReachClosed(t, {0});
    ReachStep(t, {0}, 0, 0, 1);
    ReachStep(t, {0}, 1, 1, 2);
  }

  /** A destination of a reachable state is reachable. */
  lemma ReachStep(t: Table, S: set<int>, q: int, a: int, d: int)
    requires q in Reach(t, S) && d in Targets(t, q, a)
    ensures d in Reach(t, S)
  {
    ReachClosed(t, S);
    assert a in Symbols(t, q);
    assert d in Successors(t, q);
  }

  lemma LectureAccepting()
    ensures AcceptingExactly({{0, 2}}, {{0}, {0, 1}, {0, 2}}, {2})
  {
    assert {0} * {2} == {};
    assert {0, 1} * {2} == {};
    assert 2 in {0, 2} * {2};
  }

  /** The moves of the three composites stay among them. */
  lemma LectureClosedMoves(t: Table)
    requires LectureEntries(t)
    ensures MovesIn(t, {0}, {{0}, {0, 1}, {0, 2}})
    ensures MovesIn(t, {0, 1}, {{0}, {0, 1}, {0, 2}})
    ensures MovesIn(t, {0, 2}, {{0}, {0, 1}, {0, 2}})
  {
    var P := LectureComposites();
    assert MovesIn(t, {0}, P) by {
      LectureMoveA0(t);
      LectureMoveA1(t);
      MovesInFrom(t, {0}, P, {0, 1}, {0});
    }
    assert MovesIn(t, {0, 1}, P) by {
      LectureMoveB0(t);
      LectureMoveB1(t);
      MovesInFrom(t, {0, 1}, P, {0, 1}, {0, 2});
    }
    assert MovesIn(t, {0, 2}, P) by {
      LectureMoveC0(t);
      LectureMoveC1(t);
      MovesInFrom(t, {0, 2}, P, {0, 1}, {0});
    }
  }

  /** A state whose two rows are non-empty has a live row of two entries. */
  lemma LiveRowOfOne(t: Table, q: int, r0: set<int>, r1: set<int>)
    requires Targets(t, q, 0) == r0 && Targets(t, q, 1) == r1 && r0 != {} && r1 != {}
    ensures Row(t, {q}, 2) == map[0 := r0, 1 := r1] && !IsDead(map[0 := r0, 1 := r1])
  {
    MoveSingleton(t, q, 0);
    MoveSingleton(t, q, 1);
    RowOfTwo(t, {q}, r0, r1);
    assert 0 in map[0 := r0, 1 := r1];
  }

  /** The same for a pair of states, whose moves are the unions of their rows. */
  lemma LiveRowOfPair(t: Table, p: int, q: int, r0: set<int>, r1: set<int>)
    requires Targets(t, p, 0) + Targets(t, q, 0) == r0 && Targets(t, p, 1) + Targets(t, q, 1) == r1
    requires r0 != {} && r1 != {}
    ensures Row(t, {p, q}, 2) == map[0 := r0, 1 := r1] && !IsDead(map[0 := r0, 1 := r1])
  {
    MovePair(t, p, q, 0);
    MovePair(t, p, q, 1);
    RowOfTwo(t, {p, q}, r0, r1);
    assert 0 in map[0 := r0, 1 := r1];
  }

  /**
    The subset construction for a family A, B, C from its ingredients:
    the moves stay inside the family, B and C are reached from A in two
    steps, D holds the three live rows, and dAccept the accepting composites.
  */
  lemma ThreeConstruction(t: Table, accept: set<int>, A: set<int>, B: set<int>, C: set<int>,
                          dAccept: set<set<int>>, D: CompositeTable)
    requires MovesIn(t, A, {A, B, C}) && MovesIn(t, B, {A, B, C}) && MovesIn(t, C, {A, B, C})
    requires Move(t, A, 0) == B && Move(t, B, 1) == C && B != {} && C != {}
    requires B <= Reach(t, A) && C <= Reach(t, A)
    requires D.Keys == {A, B, C}
    requires D[A] == Row(t, A, 2) && D[B] == Row(t, B, 2) && D[C] == Row(t, C, 2)
    requires !IsDead(D[A]) && !IsDead(D[B]) && !IsDead(D[C])
    requires AcceptingExactly(dAccept, {A, B, C}, accept)
    ensures IsSubsetConstruction(t, A, accept, 2, {A, B, C}, dAccept, D)
  {
    ThreeClosed(t, A, B, C);
    ThreeLeast(t, A, B, C);
    ThreeRows(t, A, B, C, D);
    ThreeComposites(t, accept, A, B, C, dAccept, D);
  }

  lemma LectureRowA(t: Table, row: map<int, set<int>>)
    requires LectureEntries(t) && row == map[0 := {0, 1}, 1 := {0}]
    ensures row == Row(t, {0}, 2) && !IsDead(row)
  {
    LiveRowOfOne(t, 0, {0, 1}, {0});
  }

  lemma LectureRowB(t: Table, row: map<int, set<int>>)
    requires LectureEntries(t) && row == map[0 := {0, 1}, 1 := {0, 2}]
    ensures row == Row(t, {0, 1}, 2) && !IsDead(row)
  {
    assert Targets(t, 0, 0) + Targets(t, 1, 0) == {0, 1};
    assert Targets(t, 0, 1) + Targets(t, 1, 1) == {0, 2};
    LiveRowOfPair(t, 0, 1, {0, 1}, {0, 2});
  }

  lemma LectureRowC(t: Table, row: map<int, set<int>>)
    requires LectureEntries(t) && row == map[0 := {0, 1}, 1 := {0}]
    ensures row == Row(t, {0, 2}, 2) && !IsDead(row)
  {
    assert Targets(t, 0, 0) + Targets(t, 2, 0) == {0, 1};
    assert Targets(t, 0, 1) + Targets(t, 2, 1) == {0};
    LiveRowOfPair(t, 0, 2, {0, 1}, {0});
  }

  /**
    test_nfa.py:94-107: the subset construction of the lecture automaton is
    the one the test expects: start {0}, accept composites {{0, 2}} and the
    three rows of the lecture, whatever order the worklist takes.
  */
  lemma LectureConstruction()
    ensures SymbolsBelow(LectureTable(), 2)
    ensures IsSubsetConstruction(LectureTable(), {0}, {2}, 2, LectureComposites(), {{0, 2}}, LectureDfa())
  {
    LectureTargets();
    LectureDfaEntries();
    LectureConstructionOf(LectureTable(), LectureDfa());
  }

  /** The construction on any table with the lecture's entries. */
  lemma LectureConstructionOf(t: Table, D: CompositeTable)
    requires LectureEntries(t)
    requires D.Keys == {{0}, {0, 1}, {0, 2}}
    requires D[{0}] == map[0 := {0, 1}, 1 := {0}]
    requires D[{0, 1}] == map[0 := {0, 1}, 1 := {0, 2}]
    requires D[{0, 2}] == map[0 := {0, 1}, 1 := {0}]
    ensures IsSubsetConstruction(t, {0}, {2}, 2, {{0}, {0, 1}, {0, 2}}, {{0, 2}}, D)
  {
    LectureReachable(t);
    LectureClosedMoves(t);
    LectureFirstMoves(t);
    LectureNonEmpty();
    LectureRows(t, D);
    LectureAccepting();
    ThreeConstruction(t, {2}, {0}, {0, 1}, {0, 2}, {{0, 2}}, D);
  }

  // Solver scaffolding for `LectureConstruction`: each of the next few
  // lemmas hands one small fact to the proof above it.

  lemma LectureReachable(t: Table)
    requires LectureEntries(t)
    ensures {0, 1} <= Reach(t, {0}) && {0, 2} <= Reach(t, {0})
  {
    LectureReach(t);
  }

  lemma LectureFirstMoves(t: Table)
    requires LectureEntries(t)
    ensures Move(t, {0}, 0) == {0, 1} && Move(t, {0, 1}, 1) == {0, 2}
  {
    LectureMoveA0(t);
    LectureMoveB1(t);
  }

  lemma LectureNonEmpty()
    ensures {0, 1} != {} && {0, 2} != {}
  {
    assert 0 in {0, 1} && 0 in {0, 2};
  }

  lemma LectureRows(t: Table, D: CompositeTable)
    requires LectureEntries(t)
    requires D.Keys == {{0}, {0, 1}, {0, 2}}
    requires D[{0}] == map[0 := {0, 1}, 1 := {0}]
    requires D[{0, 1}] == map[0 := {0, 1}, 1 := {0, 2}]
    requires D[{0, 2}] == map[0 := {0, 1}, 1 := {0}]
    ensures D[{0}] == Row(t, {0}, 2) && D[{0, 1}] == Row(t, {0, 1}, 2) && D[{0, 2}] == Row(t, {0, 2}, 2)
    ensures !IsDead(D[{0}]) && !IsDead(D[{0, 1}]) && !IsDead(D[{0, 2}])
  {
    LectureRowA(t, D[{0}]);
    LectureRowB(t, D[{0, 1}]);
    LectureRowC(t, D[{0, 2}]);
  }

  // ---------------------------------------------------------------------
  // The answers on the lecture automaton, before and after determinising
  // (test_nfa.py:88-92 and 116-119)

  lemma RunFive(t: Table, S: set<int>, a: int, b: int, c: int, d: int, e: int)
    ensures Run(t, S, [a, b, c, d, e]) == Move(t, Move(t, Move(t, Move(t, Move(t, S, a), b), c), d), e)
  {
    RunTriple(t, S, a, b, c);
    RunSnoc(t, S, [a, b, c], d);
    assert [a, b, c] + [d] == [a, b, c, d];
    RunSnoc(t, S, [a, b, c, d], e);
    assert [a, b, c, d] + [e] == [a, b, c, d, e];
  }

  lemma LectureRunOn01(t: Table)
    requires LectureEntries(t)
    ensures Run(t, {0}, [0, 1]) == {0, 2}
  {
    LectureMoveA0(t);
    LectureMoveB1(t);
    RunPair(t, {0}, 0, 1);
  }

  lemma LectureRunOn00(t: Table)
    requires LectureEntries(t)
    ensures Run(t, {0}, [0, 0]) == {0, 1}
  {
    LectureMoveA0(t);
    LectureMoveB0(t);
    RunPair(t, {0}, 0, 0);
  }

  lemma LectureRunOn01101(t: Table)
    requires LectureEntries(t)
    ensures Run(t, {0}, [0, 1, 1, 0, 1]) == {0, 2}
  {
    LectureMoveA0(t);
    LectureMoveB1(t);
    LectureMoveC1(t);
    RunFive(t, {0}, 0, 1, 1, 0, 1);
  }

  lemma LectureRunOn010(t: Table)
    requires LectureEntries(t)
    ensures Run(t, {0}, [0, 1, 0]) == {0, 1}
  {
    LectureMoveA0(t);
    LectureMoveB1(t);
    LectureMoveC0(t);
    RunTriple(t, {0}, 0, 1, 0);
  }

  /** The answers of `accepts` that the test expects, for any table with the lecture's runs. */
  ghost predicate LectureAnswers(t: Table, S: set<int>, F: set<int>) {
    && AcceptsSpec(t, S, F, "01") == Ok(true)
    && AcceptsSpec(t, S, F, "00") == Ok(false)
    && AcceptsSpec(t, S, F, "01101") == Ok(true)
    && AcceptsSpec(t, S, F, "010") == Ok(false)
  }

  lemma LectureAcceptsFromRun01(t: Table)
    requires Run(t, {0}, [0, 1]) == {0, 2}
    ensures AcceptsSpec(t, {0}, {2}, "01") == Ok(true)
  {
    assert AllDigits("01") && SymbolsOf("01") == [0, 1] by { SymbolsOfShort("01"); }
    AcceptsByRun(t, {0}, {2}, "01", [0, 1], {0, 2});
    assert 2 in {0, 2} * {2};
  }

  lemma LectureRejectsFromRun00(t: Table)
    requires Run(t, {0}, [0, 0]) == {0, 1}
    ensures AcceptsSpec(t, {0}, {2}, "00") == Ok(false)
  {
    assert AllDigits("00") && SymbolsOf("00") == [0, 0] by { SymbolsOfShort("00"); }
    AcceptsByRun(t, {0}, {2}, "00", [0, 0], {0, 1});
    assert {0, 1} * {2} == {};
  }

  lemma LectureAcceptsFromRun01101(t: Table)
    requires Run(t, {0}, [0, 1, 1, 0, 1]) == {0, 2}
    ensures AcceptsSpec(t, {0}, {2}, "01101") == Ok(true)
  {
    assert AllDigits("01101") && SymbolsOf("01101") == [0, 1, 1, 0, 1] by { SymbolsOfFive("01101"); }
    AcceptsByRun(t, {0}, {2}, "01101", [0, 1, 1, 0, 1], {0, 2});
    assert 2 in {0, 2} * {2};
  }

  lemma LectureRejectsFromRun010(t: Table)
    requires Run(t, {0}, [0, 1, 0]) == {0, 1}
    ensures AcceptsSpec(t, {0}, {2}, "010") == Ok(false)
  {
    assert AllDigits("010") && SymbolsOf("010") == [0, 1, 0] by { SymbolsOfShort("010"); }
    AcceptsByRun(t, {0}, {2}, "010", [0, 1, 0], {0, 1});
    assert {0, 1} * {2} == {};
  }

  /** The symbols of a string of five digits. */
  lemma SymbolsOfFive(w: string)
    requires |w| == 5 && AllDigits(w)
    ensures SymbolsOf(w) == [DigitValue(w[0]), DigitValue(w[1]), DigitValue(w[2]), DigitValue(w[3]), DigitValue(w[4])]
  {
  }

  lemma LectureAnswersOf(t: Table)
    requires LectureEntries(t)
    ensures LectureAnswers(t, {0}, {2})
  {
    LectureRunOn01(t);
    LectureAcceptsFromRun01(t);
    LectureRunOn00(t);
    LectureRejectsFromRun00(t);
    LectureRunOn01101(t);
    LectureAcceptsFromRun01101(t);
    LectureRunOn010(t);
    LectureRejectsFromRun010(t);
  }

  /** test_nfa.py:88-92: the answers on the lecture automaton itself. */
  lemma LectureAccepts()
    ensures LectureAnswers(LectureTable(), {0}, {2})
  {
    LectureTargets();
    LectureAnswersOf(LectureTable());
  }

  /** Determinising and renumbering keep the four answers (nfa.py:74-156). */
  lemma LectureTransfer(t: Table, P: set<set<int>>, dAccept: set<set<int>>, dTrans: CompositeTable,
                        pl: seq<set<int>>)
    requires SymbolsBelow(t, 2)
    requires forall D :: D in P <==> D in pl
    requires IsSubsetConstruction(t, {0}, {2}, 2, P, dAccept, dTrans)
    requires LectureAnswers(t, {0}, {2})
    ensures ListedIn(dTrans, pl) && (forall D :: D in dAccept ==> D in pl) && {0} in pl
    ensures LectureAnswers(Renumber(dTrans, pl), {IndexOf(pl, {0})}, RenumberSet(dAccept, pl))
  {
    DeterminizePreservesLanguage(t, {0}, {2}, 2, P, dAccept, dTrans, pl, "01");
    DeterminizePreservesLanguage(t, {0}, {2}, 2, P, dAccept, dTrans, pl, "00");
    DeterminizePreservesLanguage(t, {0}, {2}, 2, P, dAccept, dTrans, pl, "01101");
    DeterminizePreservesLanguage(t, {0}, {2}, 2, P, dAccept, dTrans, pl, "010");
  }

  /**
    test_nfa.py:94-107: `to_DFA` on the lecture automaton yields the start
    composite {0}, the accept composites {{0, 2}} and the table of the lecture.
  */
  method LectureDeterminize() returns (a: NFA)
    ensures fresh(a) && a.Valid() && !a.normalized && !a.minimized
    ensures a.trans == LectureTable() && a.start == {0} && a.accept == {2} && a.alphabetSize == 2
    ensures a.dStart == {0} && a.dAccept == {{0, 2}} && a.dTrans == LectureDfa()
    ensures Elems(a.processedList) == LectureComposites()
  {
    a := new NFA(3, 2, {0}, {2}, LectureTable());
    a.ToDFA();
    LectureConstruction();
    SubsetConstructionUnique(LectureTable(), {0}, {2}, 2, Elems(a.processedList), a.dAccept, a.dTrans,
                             LectureComposites(), {{0, 2}}, LectureDfa());
  }

  /**
    test_nfa.py:111-114: after `normalize` the start set and the accept set
    are single states, the indices of {0} and of {0, 2} in the processed
    list (which indices depends on the order the list is built in).
  */
  method LectureNormalize() returns (a: NFA)
    ensures fresh(a) && a.Valid() && a.normalized && !a.minimized
    ensures {0} in a.processedList && {0, 2} in a.processedList
    ensures a.start == {IndexOf(a.processedList, {0})} && a.accept == {IndexOf(a.processedList, {0, 2})}
    ensures a.start != a.accept
    ensures LectureAnswers(a.trans, a.start, a.accept)
  {
    a := LectureDeterminize();
    a.Normalize();
    var pl := a.processedList;
    forall D ensures D in Elems(pl) <==> D in pl {
      ElemsIn(pl, D);
    }
    LectureConstruction();
    LectureAccepts();
    LectureRenumbered(LectureTable(), Elems(pl), LectureDfa(), pl);
  }

  /** What renumbering the lecture construction along any listing gives. */
  lemma LectureRenumbered(t: Table, P: set<set<int>>, dTrans: CompositeTable, pl: seq<set<int>>)
    requires SymbolsBelow(t, 2)
    requires forall D :: D in P <==> D in pl
    requires IsSubsetConstruction(t, {0}, {2}, 2, P, {{0, 2}}, dTrans)
    requires LectureAnswers(t, {0}, {2})
    ensures {0} in pl && {0, 2} in pl && ListedIn(dTrans, pl)
    ensures RenumberSet({{0, 2}}, pl) == {IndexOf(pl, {0, 2})}
    ensures {IndexOf(pl, {0})} != {IndexOf(pl, {0, 2})}
    ensures LectureAnswers(Renumber(dTrans, pl), {IndexOf(pl, {0})}, RenumberSet({{0, 2}}, pl))
  {
    LectureTransfer(t, P, {{0, 2}}, dTrans, pl);
    assert {0, 2} in pl;
    assert IndexOf(pl, {0}) != IndexOf(pl, {0, 2}) by {
      assert 2 !in {0};
    }
  }

  /** test_nfa.py:116-119: the normalized automaton answers as the lecture automaton does. */
  method LectureNormalizedAnswers() returns (r01: Result<bool, Error>, r00: Result<bool, Error>,
                                             r01101: Result<bool, Error>, r010: Result<bool, Error>)
    ensures r01 == Ok(true) && r00 == Ok(false) && r01101 == Ok(true) && r010 == Ok(false)
  {
    var a := LectureNormalize();
    r01 := a.Accepts("01");
    r00 := a.Accepts("00");
    r01101 := a.Accepts("01101");
    r010 := a.Accepts("010");
  }
}
