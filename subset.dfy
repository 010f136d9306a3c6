/**
  What `to_DFA` and `normalize` produce, stated on values: the composite
  states (sets of original states) reachable from the start set by non-empty
  moves, the rows recorded for them, the accept composites, and the
  renumbering of composites to their position in the processed list. The
  main result is that the renumbered automaton gives the same answer as the
  original on every string.
*/
module SubsetConstruction {
  import opened Transitions
  import opened Lists
  import opened Simulation

  /** composite state -> symbol -> composite state */
  type CompositeTable = map<set<int>, map<int, set<int>>>

  /** Every symbol with an entry in the table lies in [0, n). */
  ghost predicate SymbolsBelow(t: Table, n: nat) {
    forall q, a :: q in t && a in t[q] ==> 0 <= a < n
  }

  /** The transitions recorded for composite C: one per symbol in [0, n) whose move is non-empty. */
  ghost function Row(t: Table, C: set<int>, n: nat): map<int, set<int>> {
    map s | 0 <= s < n && Move(t, C, s) != {} :: Move(t, C, s)
  }

  /**
    `is_dead`: `any` over the row's destination sets finds no non-empty
    one, so every recorded destination set is empty (an empty row is dead).
  */
  predicate IsDead(row: map<int, set<int>>) {
    !exists s :: s in row && row[s] != {}
  }

  /** A row is dead exactly when every destination set it records is empty; an empty row is dead. */
  lemma DeadRowHasNoLiveEntry(row: map<int, set<int>>)
    ensures IsDead(row) <==> forall s :: s in row ==> row[s] == {}
    ensures row == map[] ==> IsDead(row)
  {
  }

  /** Every finite set of composites over r; bounds the worklist of `to_DFA`. */
  ghost function Subsets(r: set<int>): set<set<int>> {
    set x: set<int> | x <= r
  }

  /** X is closed under the non-empty moves on the symbols [0, n). */
  ghost predicate ClosedUnderMoves(t: Table, n: nat, X: set<set<int>>) {
    forall C, s :: C in X && 0 <= s < n && Move(t, C, s) != {} ==> Move(t, C, s) in X
  }

  /**
    The outcome of the subset construction on table t, start set `start`,
    accept set `accept` and alphabet [0, n): the processed composites P are the
    least set that holds the start composite and is closed under non-empty
    moves (so each lies within the reachable states), the accept composites
    are the processed ones that meet `accept`, and the table keeps the rows of
    exactly the processed composites that are not dead.
  */
  ghost predicate IsSubsetConstruction(t: Table, start: set<int>, accept: set<int>, n: nat,
                                       P: set<set<int>>, dAccept: set<set<int>>, dTrans: CompositeTable)
  {
    && start in P
    && (forall C :: C in P ==> C <= Reach(t, start))
    && ClosedUnderMoves(t, n, P)
    && (forall X :: start in X && ClosedUnderMoves(t, n, X) ==> P <= X)
    && dAccept == (set C | C in P && C * accept != {})
    && dTrans.Keys == (set C | C in P && !IsDead(Row(t, C, n)))
    && (forall C :: C in dTrans ==> dTrans[C] == Row(t, C, n))
  }

  /** Every composite of the table, as key or destination, occurs in the list. */
  ghost predicate ListedIn(dt: CompositeTable, pl: seq<set<int>>) {
    forall C :: C in dt ==> C in pl && forall s :: s in dt[C] ==> dt[C][s] in pl
  }

  /** A renumbered row: each destination becomes the singleton of its index. */
  ghost function RenumberRow(row: map<int, set<int>>, pl: seq<set<int>>): map<int, set<int>>
    requires forall s :: s in row ==> row[s] in pl
  {
    map s | s in row :: {IndexOf(pl, row[s])}
  }

  /** The table `normalize` builds: composite keys and destinations replaced by their indices. */
  ghost function Renumber(dt: CompositeTable, pl: seq<set<int>>): Table
    requires ListedIn(dt, pl)
  {
    map C | C in dt :: IndexOf(pl, C) := RenumberRow(dt[C], pl)
  }

  /** A set of composites replaced by their indices. */
  ghost function RenumberSet(A: set<set<int>>, pl: seq<set<int>>): set<int>
    requires forall C :: C in A ==> C in pl
  {
    set C | C in A :: IndexOf(pl, C)
  }

  /** The renumbered table has one row per composite key, under that key's index. */
  lemma RenumberAt(dt: CompositeTable, pl: seq<set<int>>, C: set<int>)
    requires ListedIn(dt, pl) && C in pl
    ensures IndexOf(pl, C) in Renumber(dt, pl) <==> C in dt
    ensures C in dt ==> Renumber(dt, pl)[IndexOf(pl, C)] == RenumberRow(dt[C], pl)
  {
    var m := Renumber(dt, pl);
    if IndexOf(pl, C) in m {
      var C' :| C' in dt && IndexOf(pl, C') == IndexOf(pl, C);
      assert C' == pl[IndexOf(pl, C)] == C;
    }
  }

  /** `normalize` renumbers into [0, |pl|), injectively, and every destination is a singleton. */
  lemma RenumberShape(dt: CompositeTable, pl: seq<set<int>>)
    requires ListedIn(dt, pl)
    ensures forall i :: i in Renumber(dt, pl) ==> 0 <= i < |pl| && pl[i] in dt
    ensures forall C, D :: C in dt && D in dt && IndexOf(pl, C) == IndexOf(pl, D) ==> C == D
    ensures forall i, s :: i in Renumber(dt, pl) && s in Renumber(dt, pl)[i] ==>
              exists j :: 0 <= j < |pl| && Renumber(dt, pl)[i][s] == {j} && pl[j] == dt[pl[i]][s]
  {
    var m := Renumber(dt, pl);
    forall i | i in m ensures 0 <= i < |pl| && pl[i] in dt {
      var C :| C in dt && IndexOf(pl, C) == i;
    }
    forall i, s | i in m && s in m[i]
      ensures exists j :: 0 <= j < |pl| && m[i][s] == {j} && pl[j] == dt[pl[i]][s]
    {
      var C :| C in dt && IndexOf(pl, C) == i;
      assert pl[i] == C;
      RenumberAt(dt, pl, C);
      var j := IndexOf(pl, dt[C][s]);
      assert m[i][s] == {j};
    }
  }

  /** A dead row is an empty row, since the recorded destinations are non-empty. */
  lemma DeadRowIsEmpty(t: Table, C: set<int>, n: nat)
    ensures IsDead(Row(t, C, n)) <==> forall s :: 0 <= s < n ==> Move(t, C, s) == {}
  {
    var row := Row(t, C, n);
    if !IsDead(row) {
      var s :| s in row && row[s] != {};
      assert 0 <= s < n && Move(t, C, s) != {};
    } else {
      forall s | 0 <= s < n ensures Move(t, C, s) == {} {
        assert s in row ==> row[s] == {};
      }
    }
  }

  /** A symbol outside [0, n) moves nothing. */
  lemma MoveOutsideAlphabet(t: Table, n: nat, C: set<int>, s: int)
    requires SymbolsBelow(t, n) && !(0 <= s < n)
    ensures Move(t, C, s) == {}
  {
    MoveUnknownSymbol(t, C, s);
  }

  /** The index image of a live composite: empty when the composite is empty. */
  ghost function Image(pl: seq<set<int>>, D: set<int>): set<int>
    requires D == {} || D in pl
  {
    if D == {} then {} else {IndexOf(pl, D)}
  }

  /** One step of the renumbered automaton mirrors one move of the original. */
  lemma RenumberedMove(t: Table, n: nat, P: set<set<int>>, dTrans: CompositeTable,
                       pl: seq<set<int>>, C: set<int>, s: int)
    requires SymbolsBelow(t, n)
    requires forall D :: D in P <==> D in pl
    requires ClosedUnderMoves(t, n, P)
    requires dTrans.Keys == (set D | D in P && !IsDead(Row(t, D, n)))
    requires forall D :: D in dTrans ==> dTrans[D] == Row(t, D, n)
    requires C in P
    ensures ListedIn(dTrans, pl)
    ensures Move(t, C, s) == {} || Move(t, C, s) in pl
    ensures Move(Renumber(dTrans, pl), {IndexOf(pl, C)}, s) == Image(pl, Move(t, C, s))
  {
    assert ListedIn(dTrans, pl);
    var nt := Renumber(dTrans, pl);
    var i := IndexOf(pl, C);
    MoveSingleton(nt, i, s);
    RenumberAt(dTrans, pl, C);
    var D := Move(t, C, s);
    if D == {} {
      if C in dTrans {
        assert s !in Row(t, C, n);
      }
    } else {
      if !(0 <= s < n) {
        MoveOutsideAlphabet(t, n, C, s);
      }
      assert s in Row(t, C, n);
      assert !IsDead(Row(t, C, n));
      assert C in dTrans;
      assert nt[i][s] == {IndexOf(pl, D)};
    }
  }

  /** On a non-empty word the renumbered automaton follows the composites' runs. */
  lemma {:induction false} RenumberedRun(t: Table, n: nat, P: set<set<int>>, dTrans: CompositeTable,
                                         pl: seq<set<int>>, C: set<int>, w: seq<int>)
    requires SymbolsBelow(t, n)
    requires forall D :: D in P <==> D in pl
    requires ClosedUnderMoves(t, n, P)
    requires dTrans.Keys == (set D | D in P && !IsDead(Row(t, D, n)))
    requires forall D :: D in dTrans ==> dTrans[D] == Row(t, D, n)
    requires C in P && w != []
    ensures ListedIn(dTrans, pl)
    ensures Run(t, C, w) == {} || Run(t, C, w) in pl
    ensures Run(Renumber(dTrans, pl), {IndexOf(pl, C)}, w) == Image(pl, Run(t, C, w))
    decreases |w|
  {
    var nt := Renumber(dTrans, pl);
    var D := Move(t, C, w[0]);
    RenumberedMove(t, n, P, dTrans, pl, C, w[0]);
    var rest := w[1..];
    if rest == [] {
    } else if D == {} {
      RunOfEmpty(t, rest);
      RunOfEmpty(nt, rest);
    } else {
      RenumberedRun(t, n, P, dTrans, pl, D, rest);
    }
  }

  /**
    Determinising, then renumbering, preserves every answer of `accepts`:
    acceptance on strings of digits, and the points where a bad character
    raises an error or is never reached.
  */
  lemma DeterminizePreservesLanguage(t: Table, start: set<int>, accept: set<int>, n: nat,
                                     P: set<set<int>>, dAccept: set<set<int>>, dTrans: CompositeTable,
                                     pl: seq<set<int>>, w: string)
    requires SymbolsBelow(t, n)
    requires forall D :: D in P <==> D in pl
    requires IsSubsetConstruction(t, start, accept, n, P, dAccept, dTrans)
    ensures ListedIn(dTrans, pl) && forall D :: D in dAccept ==> D in pl
    ensures AcceptsSpec(Renumber(dTrans, pl), {IndexOf(pl, start)}, RenumberSet(dAccept, pl), w)
         == AcceptsSpec(t, start, accept, w)
  {
    assert ListedIn(dTrans, pl);
    var nt := Renumber(dTrans, pl);
    var S0 := {IndexOf(pl, start)};
    var na := RenumberSet(dAccept, pl);
    RenumberedEmptiness(t, start, n, P, dTrans, pl, w);
    if AllDigits(w) {
      RenumberedAcceptance(t, start, accept, n, P, dAccept, dTrans, pl, SymbolsOf(w));
    }
    AcceptsSpecCongruent(t, start, accept, nt, S0, na, w);
  }

  /** After every non-empty prefix of digits, the two live sets are empty together. */
  lemma RenumberedEmptiness(t: Table, start: set<int>, n: nat, P: set<set<int>>, dTrans: CompositeTable,
                            pl: seq<set<int>>, w: string)
    requires SymbolsBelow(t, n)
    requires forall D :: D in P <==> D in pl
    requires start in P && ClosedUnderMoves(t, n, P)
    requires dTrans.Keys == (set C | C in P && !IsDead(Row(t, C, n)))
    requires forall C :: C in dTrans ==> dTrans[C] == Row(t, C, n)
    ensures ListedIn(dTrans, pl)
    ensures forall k :: 0 < k <= |w| && AllDigits(w[..k]) ==>
              (Run(t, start, SymbolsOf(w[..k])) == {} <==>
               Run(Renumber(dTrans, pl), {IndexOf(pl, start)}, SymbolsOf(w[..k])) == {})
  {
    assert ListedIn(dTrans, pl);
    forall k | 0 < k <= |w| && AllDigits(w[..k])
      ensures Run(t, start, SymbolsOf(w[..k])) == {} <==>
              Run(Renumber(dTrans, pl), {IndexOf(pl, start)}, SymbolsOf(w[..k])) == {}
    {
      RenumberedRun(t, n, P, dTrans, pl, start, SymbolsOf(w[..k]));
    }
  }

  /** On every symbol sequence the renumbered automaton accepts exactly when the original does. */
  lemma RenumberedAcceptance(t: Table, start: set<int>, accept: set<int>, n: nat,
                             P: set<set<int>>, dAccept: set<set<int>>, dTrans: CompositeTable,
                             pl: seq<set<int>>, syms: seq<int>)
    requires SymbolsBelow(t, n)
    requires forall D :: D in P <==> D in pl
    requires start in P && ClosedUnderMoves(t, n, P)
    requires dAccept == (set C | C in P && C * accept != {})
    requires dTrans.Keys == (set C | C in P && !IsDead(Row(t, C, n)))
    requires forall C :: C in dTrans ==> dTrans[C] == Row(t, C, n)
    ensures ListedIn(dTrans, pl) && forall D :: D in dAccept ==> D in pl
    ensures Run(Renumber(dTrans, pl), {IndexOf(pl, start)}, syms) * RenumberSet(dAccept, pl) != {}
        <==> Run(t, start, syms) * accept != {}
  {
    assert ListedIn(dTrans, pl);
    var D := Run(t, start, syms);
    if syms == [] {
      AcceptedComposite(accept, P, dAccept, pl, start);
    } else {
      RenumberedRun(t, n, P, dTrans, pl, start, syms);
      if D != {} {
        assert D in P;
        AcceptedComposite(accept, P, dAccept, pl, D);
      }
    }
  }

  /** A processed composite is renumbered into the accept set exactly when it meets `accept`. */
  lemma AcceptedComposite(accept: set<int>, P: set<set<int>>, dAccept: set<set<int>>,
                          pl: seq<set<int>>, D: set<int>)
    requires forall C :: C in P <==> C in pl
    requires dAccept == (set C | C in P && C * accept != {})
    requires D in P
    ensures forall C :: C in dAccept ==> C in pl
    ensures {IndexOf(pl, D)} * RenumberSet(dAccept, pl) != {} <==> D * accept != {}
  {
    var na := RenumberSet(dAccept, pl);
    if IndexOf(pl, D) in na {
      var C :| C in dAccept && IndexOf(pl, C) == IndexOf(pl, D);
      assert C == pl[IndexOf(pl, D)] == D;
    }
    if D * accept != {} {
      assert D in dAccept;
      assert IndexOf(pl, D) in {IndexOf(pl, D)} * na;
    }
  }

  /**
    The outcome of the subset construction does not depend on the order in
    which the worklist is processed: any two outcomes are equal.
  */
  lemma SubsetConstructionUnique(t: Table, start: set<int>, accept: set<int>, n: nat,
                                 P: set<set<int>>, dAccept: set<set<int>>, dTrans: CompositeTable,
                                 P': set<set<int>>, dAccept': set<set<int>>, dTrans': CompositeTable)
    requires IsSubsetConstruction(t, start, accept, n, P, dAccept, dTrans)
    requires IsSubsetConstruction(t, start, accept, n, P', dAccept', dTrans')
    ensures P == P' && dAccept == dAccept' && dTrans == dTrans'
  {
    assert P <= P' && P' <= P;
  }
}
