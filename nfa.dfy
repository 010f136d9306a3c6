/**
  The automaton object of nfa.py. It lives in one of three phases:
  - integer phase (`normalized`): states and symbols are integers, `start`,
    `accept` and `trans` describe the automaton, and every operation applies;
  - composite phase (after `ToDFA`, until `Normalize`): the automaton is the
    subset construction, held in `dStart`, `dAccept`, `dTrans`, whose states
    are sets of original states, with `processedList` enumerating them;
  - minimized phase (after `Minimize`): states are class ids, held in
    `minStart`, `accept` and `minTrans`.
  The source keeps all three in the same three attributes, retyped; the
  model gives each phase its own fields.
*/
module Nfa {
  import opened Wrappers
  import opened Transitions
  import opened Lists
  import opened Simulation
  import opened SubsetConstruction
  import opened Minimization

  /** The `ValueError` the constructor raises on a negative size. */
  datatype SizeError = NegativeSize

  /** The table restricted to the rows of the states in R. */
  ghost function Prune(t: Table, R: set<int>): Table {
    map q | q in t && q in R :: t[q]
  }

  /** From inside R, the pruned table moves exactly as the full one. */
  lemma PruneKeepsMoves(t: Table, R: set<int>, S: set<int>, a: int)
    requires S <= R
    ensures Move(Prune(t, R), S, a) == Move(t, S, a)
  {
    var p := Prune(t, R);
    forall q | q in S ensures Targets(p, q, a) == Targets(t, q, a) {
      assert q in R;
    }
    forall d | d in Move(t, S, a) ensures d in Move(p, S, a) {
      var q :| q in S && d in Targets(t, q, a);
      assert d in Targets(p, q, a);
    }
  }

  /** From inside a closed set R, every run of the pruned table is the run of the full one. */
  lemma {:induction false} PruneKeepsRuns(t: Table, R: set<int>, S: set<int>, w: seq<int>)
    requires Closed(t, R) && S <= R
    ensures Run(Prune(t, R), S, w) == Run(t, S, w)
    decreases |w|
  {
    if w != [] {
      PruneKeepsMoves(t, R, S, w[0]);
      MoveWithinClosed(t, R, S, w[0]);
      PruneKeepsRuns(t, R, Move(t, S, w[0]), w[1..]);
    }
  }

  /**
    Dropping the rows of unreachable states (nfa.py:186-191) changes no run
    from the start states, so `accepts` gives the same answers before and
    after the pruning stage of `minimize`.
  */
  lemma PruneToReach(t: Table, start: set<int>, w: seq<int>)
    ensures Run(Prune(t, Reach(t, start)), start, w) == Run(t, start, w)
  {
    ReachContains(t, start);
    ReachClosed(t, start);
    PruneKeepsRuns(t, Reach(t, start), start, w);
  }

  /**
    What `minimize` needs to run without an exception and to index its
    matrix by state id: after pruning to the reachable states, the table's
    states are exactly 0..n-1, with a non-empty destination set on every
    symbol whose chosen element is again a state.
  */
  ghost predicate MinimizeDefined(t: Table, start: set<int>, alpha: nat) {
    var p := Prune(t, Reach(t, start));
    Minimizable(p, |p|, alpha)
  }

  /**
    What the minimisation leaves on the pruned table t with states 0..n-1 and
    accept states `accept`: the undistinguished relation E is the greatest
    consistent relation; exactly the states with an undistinguished partner
    have an id; two of them share an id exactly when they are
    undistinguished; the ids are 0..count-1, given to the classes in the
    order of their least members; `acc` holds the ids of accept
    states; every class has a row with an entry on every symbol, and every
    recorded class destination comes from a member's row.
  */
  ghost predicate MinimizedBy(t: Table, n: nat, alpha: nat, accept: set<int>, E: set<(int, int)>,
                              ids: map<int, int>, count: nat, table: map<int, map<int, int>>, acc: set<int>)
  {
    && Minimizable(t, n, alpha)
    && Consistent(t, n, alpha, accept, E)
    && (forall Z :: Consistent(t, n, alpha, accept, Z) ==> Z <= E)
    && (forall q :: q in ids <==> exists r :: r != q && (q, r) in E)
    && (forall x, y :: x in ids && y in ids ==> (ids[x] == ids[y] <==> (x, y) in E))
    && (forall c :: c in ids.Values <==> 0 <= c < count)
    && NumberedByLeastMember(ids)
    && count <= n
    && AcceptIds(accept, ids, acc)
    && RowsFrom(t, ids, table, count)
    && RowsFull(table, count, alpha)
  }

  /**
    `dfa_transitions[state]` on a defaultdict: the recorded row of C, or an
    empty row (which is dead) when nothing was recorded for C.
  */
  function RowOf(rows: CompositeTable, C: set<int>): (row: map<int, set<int>>)
    ensures C in rows ==> row == rows[C]
    ensures C !in rows ==> row == map[] && IsDead(row)
  {
    if C in rows then rows[C] else map[]
  }

  class NFA {
    const statesSize: nat
    const alphabetSize: nat

    // integer phase
    var start: set<int>
    var accept: set<int>
    var trans: Table

    // the source's private `__normalized` flag and `__processed_list`
    var normalized: bool
    var processedList: seq<set<int>>

    // composite phase
    var dStart: set<int>
    var dAccept: set<set<int>>
    var dTrans: CompositeTable

    // minimized phase
    ghost var minimized: bool
    var minStart: set<Option<int>>
    var minTrans: map<int, map<int, int>>
    ghost var classOf: map<int, int>
    ghost var classCount: nat
    ghost var undistinguished: set<(int, int)>

    /** The phases' invariants: the composites of the composite phase are all listed. */
    ghost predicate Valid()
      reads this
    {
      && (minimized ==> normalized)
      && (!normalized ==>
            && Distinct(processedList)
            && dStart in processedList
            && (forall C :: C in dAccept ==> C in processedList)
            && ListedIn(dTrans, processedList))
    }

    /** nfa.py:5-16 after the size check: an integer-phase automaton holding the given parts. */
    constructor (statesSize: nat, alphabetSize: nat, start: set<int>, accept: set<int>, trans: Table)
      ensures this.statesSize == statesSize && this.alphabetSize == alphabetSize
      ensures this.start == start && this.accept == accept && this.trans == trans
      ensures normalized && !minimized && processedList == []
      ensures Valid()
    {
      this.statesSize := statesSize;
      this.alphabetSize := alphabetSize;
      this.start := start;
      this.accept := accept;
      this.trans := trans;
      normalized := true;
      processedList := [];
      dStart := {};
      dAccept := {};
      dTrans := map[];
      minimized := false;
      minStart := {};
      minTrans := map[];
      classOf := map[];
      classCount := 0;
      undistinguished := {};
    }

    /** nfa.py:5-16: the constructor, which rejects a negative number of states or symbols. */
    static method Create(statesSize: int, alphabetSize: int, start: set<int>, accept: set<int>, trans: Table)
      returns (r: Result<NFA, SizeError>)
      ensures r.Err? <==> statesSize < 0 || alphabetSize < 0
      ensures r.Ok? ==> fresh(r.value) && r.value.Valid() && r.value.normalized && !r.value.minimized
      ensures r.Ok? ==> r.value.processedList == []
      ensures r.Ok? ==> r.value.statesSize == statesSize && r.value.alphabetSize == alphabetSize
      ensures r.Ok? ==> r.value.start == start && r.value.accept == accept && r.value.trans == trans
    {
      if statesSize < 0 || alphabetSize < 0 {
        return Err(NegativeSize);
      }
      var a := new NFA(statesSize, alphabetSize, start, accept, trans);
      return Ok(a);
    }

    /**
      nfa.py:31-38: record the edge a --s--> b. The table becomes
      WithEdge(old table), whose lemmas say what that means for every
      entry and every Move.
    */
    method AddTransition(a: int, s: int, b: int)
      requires Valid() && normalized && !minimized
      modifies this
      ensures trans == WithEdge(old(trans), a, s, b)
      ensures start == old(start) && accept == old(accept)
      ensures normalized && !minimized && processedList == old(processedList)
      ensures Valid()
    {
      if a in trans {
        if s in trans[a] {
          trans := trans[a := trans[a][s := trans[a][s] + {b}]];
        } else {
          assert Targets(trans, a, s) + {b} == {b};
          trans := trans[a := trans[a][s := {b}]];
        }
      } else {
        assert Targets(trans, a, s) + {b} == {b};
        trans := trans[a := map[s := {b}]];
      }
    }

    /** nfa.py:40-47: the states one s-edge away from some state of S. */
    method MoveStates(S: set<int>, s: int) returns (next: set<int>)
      ensures next == Move(trans, S, s)
    {
      next := {};
      var rest := S;
      while rest != {}
        invariant rest <= S
        invariant next == Move(trans, S - rest, s)
        decreases rest
      {
        assert (forall y :: y !in rest) ==> rest == {};
        var q :| q in rest;
        MoveUnion(trans, S - rest, {q}, s);
        MoveSingleton(trans, q, s);
        if q in trans {
          if s in trans[q] {
            next := next + trans[q][s];
          }
        }
        assert S - (rest - {q}) == (S - rest) + {q};
        rest := rest - {q};
      }
    }

    /**
      nfa.py:49-58: convert each character to a symbol, advance the live set,
      return `false` as soon as it is empty, and otherwise report whether the
      final set meets the accept states. A character that is not a digit
      reached by the scan is the conversion error.
    */
    method Accepts(w: string) returns (r: Result<bool, Error>)
      requires normalized && !minimized
      ensures r == AcceptsSpec(trans, start, accept, w)
      ensures AllDigits(w) ==> r == Ok(Run(trans, start, SymbolsOf(w)) * accept != {})
    {
      var current := start;
      for i := 0 to |w|
        invariant AllDigits(w[..i])
        invariant current == Run(trans, start, SymbolsOf(w[..i]))
        invariant i > 0 ==> current != {}
      {
        if !IsDigit(w[i]) {
          AcceptsAtBadChar(trans, start, accept, w, i);
          return Err(NotADigit(w[i]));
        }
        var sym := DigitValue(w[i]);
        SymbolsSnoc(w, i);
        RunSnoc(trans, start, SymbolsOf(w[..i]), sym);
        current := MoveStates(current, sym);
        if current == {} {
          AcceptsAfterEmpty(trans, start, accept, w, i + 1);
          return Ok(false);
        }
      }
      assert w[..|w|] == w;
      AcceptsDigits(trans, start, accept, w);
      return Ok(current * accept != {});
    }

    /** nfa.py:68-71, inner loop: push the targets not yet visited. */
    static method PushTargets(targets: set<int>, visited: set<int>, stack: seq<int>) returns (stack': seq<int>)
      ensures forall d :: d in stack' <==> d in stack || (d in targets && d !in visited)
    {
      stack' := stack;
      var rest := targets;
      while rest != {}
        invariant rest <= targets
        invariant forall d :: d in stack' <==> d in stack || (d in targets - rest && d !in visited)
        decreases rest
      {
        assert (forall y :: y !in rest) ==> rest == {};
        var d :| d in rest;
        if d !in visited {
          stack' := stack' + [d];
        }
        rest := rest - {d};
      }
    }

    /** nfa.py:67-71: push every successor of q not yet visited. */
    method PushSuccessors(q: int, visited: set<int>, stack: seq<int>) returns (stack': seq<int>)
      ensures forall d :: d in stack' <==> d in stack || (d in Successors(trans, q) && d !in visited)
    {
      stack' := stack;
      if q in trans {
        var syms := trans[q].Keys;
        while syms != {}
          invariant syms <= trans[q].Keys
          invariant forall d :: d in stack' <==>
            (d in stack || (d !in visited && exists a :: a in trans[q] && a !in syms && d in trans[q][a]))
          decreases syms
        {
          assert (forall y :: y !in syms) ==> syms == {};
          var a :| a in syms;
          stack' := PushTargets(trans[q][a], visited, stack');
          syms := syms - {a};
        }
        forall d ensures d in Successors(trans, q) <==> exists a :: a in trans[q] && d in trans[q][a] {
          if exists a :: a in trans[q] && d in trans[q][a] {
            var a :| a in trans[q] && d in trans[q][a];
            assert a in Symbols(trans, q) && d in Targets(trans, q, a);
          }
        }
      }
    }

    /**
      nfa.py:60-72: depth-first search from the start states. The result is
      the set of states reachable from them: it holds the start states, is
      closed under every edge, and lies inside every such set.
    */
    method GetReachableStates() returns (r: set<int>)
      ensures r == Reach(trans, start)
      ensures start <= r && Closed(trans, r)
    {
      ghost var R := Reach(trans, start);
      ReachContains(trans, start);
      ReachClosed(trans, start);
      r := {};
      var stack := ListOf(start);
      SearchStarts(trans, start, R, stack);
      while stack != []
        invariant SearchInv(trans, start, R, r, stack)
        decreases R - r, |stack|
      {
        var q := stack[|stack| - 1];
        ghost var before := stack;
        stack := stack[..|stack| - 1];
        if q in r {
          SearchPop(trans, start, R, r, before);
        } else {
          ghost var r0 := r;
          r := r + {q};
          stack := PushSuccessors(q, r, stack);
          SearchVisit(trans, start, R, r0, before, stack);
        }
      }
      SearchDone(trans, start, R, r);
      ReachLeast(trans, start, r);
    }

    /**
      nfa.py:107-116: the row of composite C over the symbols 0..alphabetSize-1,
      and the successors to enqueue: every non-empty destination.
    */
    method ExpandRow(C: set<int>) returns (row: map<int, set<int>>, succs: seq<set<int>>)
      ensures row == Row(trans, C, alphabetSize)
      ensures forall x :: x in row ==> row[x] in succs
      ensures forall D :: D in succs ==> exists x :: x in row && row[x] == D
    {
      row := map[];
      succs := [];
      for s := 0 to alphabetSize
        invariant forall x :: x in row <==> 0 <= x < s && Move(trans, C, x) != {}
        invariant forall x :: x in row ==> row[x] == Move(trans, C, x)
        invariant forall x :: x in row ==> row[x] in succs
        invariant forall D :: D in succs ==> exists x :: x in row && row[x] == D
      {
        var next := MoveStates(C, s);
        if next != {} {
          succs := succs + [next];
          row := row[s := next];
        }
      }
    }

    /**
      nfa.py:94-116: the worklist loop of the subset construction. The
      processed composites are the least set holding the start composite and
      closed under non-empty moves; the accept composites are the processed
      ones that meet the accept states; the recorded rows are those of the
      processed composites that have at least one non-empty move. Every
      non-empty successor is enqueued (the check against the always-empty
      `dfa_states` never blocks); the processed set removes the repeats.
    */
    method Explore(reach: set<int>) returns (processed: set<set<int>>, dacc: set<set<int>>, rows: CompositeTable)
      requires reach == Reach(trans, start)
      ensures start in processed
      ensures forall C :: C in processed ==> C <= reach
      ensures ClosedUnderMoves(trans, alphabetSize, processed)
      ensures forall X :: start in X && ClosedUnderMoves(trans, alphabetSize, X) ==> processed <= X
      ensures forall C :: C in dacc <==> C in processed && C * accept != {}
      ensures forall C :: C in rows ==> C in processed
      ensures forall C :: C in processed ==> RowOf(rows, C) == Row(trans, C, alphabetSize)
    {
      ReachIsLeastClosed(trans, start, reach);
      var queue := [start];
      processed, dacc, rows := {}, {}, map[];
      ExploreStarts(trans, alphabetSize, start, accept, reach);
      while queue != []
        invariant ExploreInv(trans, alphabetSize, start, accept, reach, processed, queue, dacc, rows)
        decreases Subsets(reach) - processed, |queue|
      {
        var current := queue[0];
        ghost var q0 := queue;
        queue := queue[1..];
        if current in processed {
          ExploreSkip(trans, alphabetSize, start, accept, reach, processed, q0, dacc, rows);
          continue;
        }
        var row, succs := ExpandRow(current);
        ExploreVisit(trans, alphabetSize, start, accept, reach, processed, q0, dacc, rows, row, succs);
        processed := processed + {current};
        if current * accept != {} {
          dacc := dacc + {current};
        }
        queue := queue + succs;
        if row != map[] {
          rows := rows[current := row];
        }
      }
      ExploreDone(trans, alphabetSize, start, accept, reach, processed, dacc, rows);
    }

    /**
      nfa.py:74-128: the subset construction. The composite phase begins:
      the search result is that of `Explore`, the recorded table drops the
      dead composites (`is_dead`), and the processed composites are listed in
      some order.
    */
    method ToDFA()
      requires Valid() && normalized && !minimized
      modifies this
      ensures Valid() && !normalized && !minimized
      ensures IsSubsetConstruction(trans, start, accept, alphabetSize,
                                   Elems(processedList), dAccept, dTrans)
      ensures dStart == start
      ensures trans == old(trans) && start == old(start) && accept == old(accept)
    {
      var dacc, table, pl := Determinize();
      normalized := false;
      dStart := start;
      dAccept := dacc;
      dTrans := table;
      processedList := pl;
    }

    /**
      nfa.py:85-124: the values `to_DFA` stores: the accept composites, the
      table without the dead composites, and the processed composites listed
      in some order. The start composite is the start set itself, since
      every start state is reachable (nfa.py:89-91).
    */
    method Determinize() returns (dacc: set<set<int>>, table: CompositeTable, pl: seq<set<int>>)
      ensures IsSubsetConstruction(trans, start, accept, alphabetSize, Elems(pl), dacc, table)
      ensures Distinct(pl) && start in pl && (forall C :: C in dacc ==> C in pl) && ListedIn(table, pl)
    {
      var reach := GetReachableStates();
      var c0 := start * reach;
      assert c0 == start;
      var processed, rows;
      processed, dacc, rows := Explore(reach);
      table := map C | C in processed && !IsDead(RowOf(rows, C)) :: RowOf(rows, C);
      pl := ListOf(processed);
      ExploredIsConstruction(trans, start, accept, alphabetSize, processed, dacc, rows, table, pl);
    }

    /**
      nfa.py:130-156: replace every composite by its index in the processed
      list: the start composite becomes a singleton, the accept composites
      and every key and destination of the table become integers (each
      destination a singleton). Nothing happens when the flag is set:
      in the integer phase and after `minimize` (nfa.py:137-138).
    */
    method Normalize()
      requires Valid()
      modifies this
      ensures processedList == old(processedList)
      ensures dStart == old(dStart) && dAccept == old(dAccept) && dTrans == old(dTrans)
      ensures minimized == old(minimized)
      ensures Valid() && normalized
      ensures old(normalized) ==> unchanged(this)
      ensures !old(normalized) ==>
        && start == {IndexOf(processedList, dStart)}
        && accept == RenumberSet(dAccept, processedList)
        && trans == Renumber(dTrans, processedList)
    {
      if normalized {
        return;
      }
      var pl := processedList;
      start := {IndexOf(pl, dStart)};
      accept := set C | C in dAccept :: IndexOf(pl, C);
      trans := NormalizeTable(dTrans, pl);
      normalized := true;
    }

    /** nfa.py:147-155: the renumbered table, built row by row. */
    static method NormalizeTable(dt: CompositeTable, pl: seq<set<int>>) returns (nt: Table)
      requires Distinct(pl) && ListedIn(dt, pl)
      ensures nt == Renumber(dt, pl)
    {
      nt := map[];
      var keys := dt.Keys;
      while keys != {}
        invariant RenumberedSoFar(dt, pl, keys, nt)
        decreases keys
      {
        assert (forall y :: y !in keys) ==> keys == {};
        var C :| C in keys;
        var r := NormalizeRow(dt[C], pl);
        RenumberStep(dt, pl, keys, nt, C, r);
        nt := nt[IndexOf(pl, C) := r];
        keys := keys - {C};
      }
      RenumberDone(dt, pl, nt);
    }

    /** nfa.py:149-153: one renumbered row. */
    static method NormalizeRow(row: map<int, set<int>>, pl: seq<set<int>>) returns (r: map<int, set<int>>)
      requires forall s :: s in row ==> row[s] in pl
      ensures r == RenumberRow(row, pl)
    {
      r := map[];
      var syms := row.Keys;
      while syms != {}
        invariant syms <= row.Keys
        invariant forall s :: s in r <==> s in row && s !in syms
        invariant forall s :: s in r ==> r[s] == {IndexOf(pl, row[s])}
        decreases syms
      {
        assert (forall y :: y !in syms) ==> syms == {};
        var s :| s in syms;
        r := r[s := {IndexOf(pl, row[s])}];
        syms := syms - {s};
      }
      forall s ensures s in r <==> s in RenumberRow(row, pl) {
        assert s !in syms;
      }
      assert forall s :: s in r ==> r[s] == RenumberRow(row, pl)[s];
      assert r.Keys == RenumberRow(row, pl).Keys;
    }

    /**
      nfa.py:180-253: prune to the reachable states, fill the
      distinguishability table, and merge the undistinguished states.
      Afterwards `undistinguished` is the greatest consistent relation on the
      pruned table (two states are in it exactly when no string tells them
      apart by the chosen successors), the states of its classes with two or
      more members are numbered 0..classCount-1 in `classOf`, the accept set
      holds the ids of accept states, every recorded class destination comes
      from a member's row, and a start state without an id becomes None.
    */
    method Minimize()
      requires Valid() && normalized && !minimized
      requires MinimizeDefined(trans, start, alphabetSize)
      modifies this`trans, this`start, this`accept, this`minTrans, this`minStart
      modifies this`classOf, this`classCount, this`undistinguished, this`minimized
      ensures Valid() && normalized && minimized
      ensures trans == Prune(old(trans), Reach(old(trans), old(start)))
      ensures start == old(start)
      ensures MinimizedBy(trans, |trans|, alphabetSize, old(accept) * Reach(old(trans), old(start)),
                          undistinguished, classOf, classCount, minTrans, accept)
      ensures minStart == set q | q in start :: Get(classOf, q)
    {
      var reach, pruned, ids, count, table, acc, s, ms;
      ghost var E;
      reach, pruned, E, ids, count, table, acc, s, ms := MinimizeTables();
      trans, start, accept, minTrans, minStart := pruned, s, acc, table, ms;
      classOf, classCount, undistinguished, minimized := ids, count, E, true;
    }

    /**
      nfa.py:187-253: the values `minimize` computes. The pruned table keeps
      the rows of the reachable states; the start states, all reachable, stay
      as they are; the accept states are cut down to the reachable ones and
      handed to the marking and numbering of MergeStates; each start state is
      then replaced by its id, or None when it has none.
    */
    method MinimizeTables()
      returns (reach: set<int>, pruned: Table, ghost E: set<(int, int)>, ids: map<int, int>, count: nat,
               table: map<int, map<int, int>>, acc: set<int>, s: set<int>, ms: set<Option<int>>)
      requires MinimizeDefined(trans, start, alphabetSize)
      ensures reach == Reach(trans, start) && start <= reach
      ensures pruned == Prune(trans, reach)
      ensures MinimizedBy(pruned, |pruned|, alphabetSize, accept * reach, E, ids, count, table, acc)
      ensures s == start
      ensures ms == set q | q in start :: Get(ids, q)
    {
      reach := GetReachableStates();
      pruned := map q | q in trans && q in reach :: trans[q];
      var n := |pruned|;
      E, ids, count, table, acc := MergeStates(pruned, n, alphabetSize, accept * reach);
      s := start * reach;
      assert s == start;
      ms := set q | q in s :: Get(ids, q);
    }
  }

  /**
    The invariant of the depth-first search: everything visited or stacked
    is reachable, every start state is visited or stacked, and every edge out
    of a visited state leads to a visited or a stacked state.
  */
  ghost predicate SearchInv(t: Table, start: set<int>, R: set<int>, r: set<int>, stack: seq<int>) {
    && r <= R
    && (forall d :: d in stack ==> d in R)
    && (forall q :: q in start ==> q in r || q in stack)
    && (forall q, d :: q in r && d in Successors(t, q) ==> d in r || d in stack)
  }

  /** The search starts with nothing visited and the start states stacked. */
  lemma SearchStarts(t: Table, start: set<int>, R: set<int>, stack: seq<int>)
    requires start <= R && forall x :: x in stack <==> x in start
    ensures SearchInv(t, start, R, {}, stack)
  {
  }

  /** Popping a state already visited keeps the invariant. */
  lemma SearchPop(t: Table, start: set<int>, R: set<int>, r: set<int>, stack: seq<int>)
    requires stack != [] && stack[|stack| - 1] in r
    requires SearchInv(t, start, R, r, stack)
    ensures SearchInv(t, start, R, r, stack[..|stack| - 1])
  {
    assert forall d :: d in stack ==> d in stack[..|stack| - 1] || d == stack[|stack| - 1];
  }

  /** Visiting the popped state and stacking its unvisited successors keeps the invariant. */
  lemma SearchVisit(t: Table, start: set<int>, R: set<int>, r: set<int>, stack: seq<int>, stack': seq<int>)
    requires stack != [] && Closed(t, R)
    requires SearchInv(t, start, R, r, stack)
    requires forall d :: d in stack' <==>
               (d in stack[..|stack| - 1] || (d in Successors(t, stack[|stack| - 1]) && d !in r + {stack[|stack| - 1]}))
    ensures SearchInv(t, start, R, r + {stack[|stack| - 1]}, stack')
    ensures stack[|stack| - 1] in R
  {
    var q := stack[|stack| - 1];
    assert forall d :: d in stack ==> d in stack[..|stack| - 1] || d == q;
    assert q in R;
  }

  /** With the stack empty, the visited set holds the start states and is closed. */
  lemma SearchDone(t: Table, start: set<int>, R: set<int>, r: set<int>)
    requires SearchInv(t, start, R, r, [])
    ensures r <= R && start <= r && Closed(t, r)
  {
    forall q | q in start ensures q in r {
      assert q !in [];
    }
    forall q, d | q in r && d in Successors(t, q) ensures d in r {
      assert d !in [];
    }
  }

  /**
    The invariant of the worklist loop of the subset construction: every
    composite processed or queued lies within the reachable states, the start
    composite is processed or queued, every non-empty move of a processed
    composite is processed or queued, whatever is processed or queued is in
    every closed family holding the start composite, and the accept
    composites and rows are those of the processed composites.
  */
  ghost predicate ExploreInv(t: Table, n: nat, start: set<int>, accept: set<int>, reach: set<int>,
                             processed: set<set<int>>, queue: seq<set<int>>,
                             dacc: set<set<int>>, rows: CompositeTable)
  {
    && (forall C :: C in processed ==> C <= reach)
    && (forall D :: D in queue ==> D <= reach)
    && (start in processed || start in queue)
    && Frontier(t, n, processed, queue)
    && (forall X :: start in X && ClosedUnderMoves(t, n, X) ==>
          processed <= X && forall D :: D in queue ==> D in X)
    && (forall C :: C in dacc <==> C in processed && C * accept != {})
    && (forall C :: C in rows ==> C in processed)
    && (forall C :: C in processed ==> RowOf(rows, C) == Row(t, C, n))
  }

  /** The loop starts with the start composite queued and nothing processed. */
  lemma ExploreStarts(t: Table, n: nat, start: set<int>, accept: set<int>, reach: set<int>)
    requires start <= reach
    ensures ExploreInv(t, n, start, accept, reach, {}, [start], {}, map[])
  {
  }

  /** Dropping a queued composite that is already processed keeps the invariant. */
  lemma ExploreSkip(t: Table, n: nat, start: set<int>, accept: set<int>, reach: set<int>,
                    processed: set<set<int>>, queue: seq<set<int>>,
                    dacc: set<set<int>>, rows: CompositeTable)
    requires queue != [] && queue[0] in processed
    requires ExploreInv(t, n, start, accept, reach, processed, queue, dacc, rows)
    ensures ExploreInv(t, n, start, accept, reach, processed, queue[1..], dacc, rows)
  {
    assert forall D :: D in queue ==> D == queue[0] || D in queue[1..];
    FrontierDrop(t, n, processed, queue);
  }

  /** Processing the front composite and queueing its row's destinations keeps the invariant. */
  lemma ExploreVisit(t: Table, n: nat, start: set<int>, accept: set<int>, reach: set<int>,
                     processed: set<set<int>>, queue: seq<set<int>>,
                     dacc: set<set<int>>, rows: CompositeTable,
                     row: map<int, set<int>>, succs: seq<set<int>>)
    requires queue != [] && queue[0] !in processed && Closed(t, reach)
    requires ExploreInv(t, n, start, accept, reach, processed, queue, dacc, rows)
    requires row == Row(t, queue[0], n)
    requires forall x :: x in row ==> row[x] in succs
    requires forall D :: D in succs ==> exists x :: x in row && row[x] == D
    ensures queue[0] in Subsets(reach)
    ensures ExploreInv(t, n, start, accept, reach, processed + {queue[0]}, queue[1..] + succs,
                       if queue[0] * accept != {} then dacc + {queue[0]} else dacc,
                       if row != map[] then rows[queue[0] := row] else rows)
  {
    var C := queue[0];
    var P', Q' := processed + {C}, queue[1..] + succs;
    var dacc' := if C * accept != {} then dacc + {C} else dacc;
    var rows' := if row != map[] then rows[C := row] else rows;
    VisitWithin(t, n, reach, processed, queue, row, succs, P', Q');
    VisitLeast(t, n, start, processed, queue, row, succs, P', Q');
    FrontierStep(t, n, processed, queue, row, succs);
    VisitRecords(t, n, accept, processed, dacc, rows, C, row, P', dacc', rows');
  }

  /** The new composites lie within the reachable states. */
  lemma VisitWithin(t: Table, n: nat, reach: set<int>, processed: set<set<int>>, queue: seq<set<int>>,
                    row: map<int, set<int>>, succs: seq<set<int>>, P': set<set<int>>, Q': seq<set<int>>)
    requires queue != [] && Closed(t, reach)
    requires forall C :: C in processed ==> C <= reach
    requires forall D :: D in queue ==> D <= reach
    requires row == Row(t, queue[0], n)
    requires forall D :: D in succs ==> exists x :: x in row && row[x] == D
    requires P' == processed + {queue[0]} && Q' == queue[1..] + succs
    ensures queue[0] in Subsets(reach)
    ensures forall C :: C in P' ==> C <= reach
    ensures forall D :: D in Q' ==> D <= reach
  {
    RowWithin(t, reach, queue[0], n);
    assert forall D :: D in queue[1..] ==> D in queue;
  }

  /** The new composites are in every closed family holding the start composite. */
  lemma VisitLeast(t: Table, n: nat, start: set<int>, processed: set<set<int>>, queue: seq<set<int>>,
                   row: map<int, set<int>>, succs: seq<set<int>>, P': set<set<int>>, Q': seq<set<int>>)
    requires queue != []
    requires start in processed || start in queue
    requires forall X :: start in X && ClosedUnderMoves(t, n, X) ==>
               processed <= X && forall D :: D in queue ==> D in X
    requires row == Row(t, queue[0], n)
    requires forall D :: D in succs ==> exists x :: x in row && row[x] == D
    requires P' == processed + {queue[0]} && Q' == queue[1..] + succs
    ensures start in P' || start in Q'
    ensures forall X :: start in X && ClosedUnderMoves(t, n, X) ==>
              P' <= X && forall D :: D in Q' ==> D in X
  {
    assert forall D :: D in queue ==> D == queue[0] || D in queue[1..];
    assert forall D :: D in queue[1..] ==> D in queue;
    SuccessorsInClosed(t, n, start, queue[0], row, succs);
  }

  /** The accept composites and rows of the new processed set. */
  lemma VisitRecords(t: Table, n: nat, accept: set<int>, processed: set<set<int>>,
                     dacc: set<set<int>>, rows: CompositeTable, C: set<int>, row: map<int, set<int>>,
                     P': set<set<int>>, dacc': set<set<int>>, rows': CompositeTable)
    requires C !in processed && row == Row(t, C, n)
    requires forall D :: D in dacc <==> D in processed && D * accept != {}
    requires forall D :: D in rows ==> D in processed
    requires forall D :: D in processed ==> RowOf(rows, D) == Row(t, D, n)
    requires P' == processed + {C}
    requires dacc' == if C * accept != {} then dacc + {C} else dacc
    requires rows' == if row != map[] then rows[C := row] else rows
    ensures forall D :: D in dacc' <==> D in P' && D * accept != {}
    ensures forall D :: D in rows' ==> D in P'
    ensures forall D :: D in P' ==> RowOf(rows', D) == Row(t, D, n)
  {
  }

  /** With the queue empty, the loop's result is the least closed family holding the start composite. */
  lemma ExploreDone(t: Table, n: nat, start: set<int>, accept: set<int>, reach: set<int>,
                    processed: set<set<int>>, dacc: set<set<int>>, rows: CompositeTable)
    requires ExploreInv(t, n, start, accept, reach, processed, [], dacc, rows)
    ensures start in processed
    ensures forall C :: C in processed ==> C <= reach
    ensures ClosedUnderMoves(t, n, processed)
    ensures forall X :: start in X && ClosedUnderMoves(t, n, X) ==> processed <= X
    ensures forall C :: C in dacc <==> C in processed && C * accept != {}
    ensures forall C :: C in rows ==> C in processed
    ensures forall C :: C in processed ==> RowOf(rows, C) == Row(t, C, n)
  {
    forall C, s | C in processed && 0 <= s < n && Move(t, C, s) != {} ensures Move(t, C, s) in processed {
      assert Move(t, C, s) !in [];
    }
  }

  /** The destinations in the row of a composite inside a closed set stay inside it. */
  lemma RowWithin(t: Table, R: set<int>, C: set<int>, n: nat)
    requires Closed(t, R) && C <= R
    ensures forall s :: s in Row(t, C, n) ==> Row(t, C, n)[s] <= R
  {
    forall s | s in Row(t, C, n) ensures Row(t, C, n)[s] <= R {
      MoveWithinClosed(t, R, C, s);
    }
  }

  /** The successors of a composite lie in every closed set that holds it. */
  lemma SuccessorsInClosed(t: Table, n: nat, c0: set<int>, C: set<int>,
                           row: map<int, set<int>>, succs: seq<set<int>>)
    requires row == Row(t, C, n)
    requires forall D :: D in succs ==> exists x :: x in row && row[x] == D
    ensures forall X :: C in X && ClosedUnderMoves(t, n, X) ==> forall D :: D in succs ==> D in X
  {
    forall X, D | C in X && ClosedUnderMoves(t, n, X) && D in succs ensures D in X {
      var x :| x in row && row[x] == D;
    }
  }

  /** Every non-empty move of a processed composite is processed or still queued. */
  ghost predicate Frontier(t: Table, n: nat, P: set<set<int>>, queue: seq<set<int>>) {
    forall C, s :: C in P && 0 <= s < n && Move(t, C, s) != {} ==> Move(t, C, s) in P || Move(t, C, s) in queue
  }

  /** Dropping a queued composite that is already processed keeps the frontier. */
  lemma FrontierDrop(t: Table, n: nat, P: set<set<int>>, queue: seq<set<int>>)
    requires queue != [] && queue[0] in P && Frontier(t, n, P, queue)
    ensures Frontier(t, n, P, queue[1..])
  {
    assert forall D :: D in queue ==> D == queue[0] || D in queue[1..];
  }

  /** Processing the front composite and enqueueing its row's destinations keeps the frontier. */
  lemma FrontierStep(t: Table, n: nat, P: set<set<int>>, queue: seq<set<int>>,
                     row: map<int, set<int>>, succs: seq<set<int>>)
    requires queue != [] && Frontier(t, n, P, queue)
    requires row == Row(t, queue[0], n) && forall x :: x in row ==> row[x] in succs
    ensures Frontier(t, n, P + {queue[0]}, queue[1..] + succs)
  {
    var C := queue[0];
    forall D, s | D in P + {C} && 0 <= s < n && Move(t, D, s) != {}
      ensures Move(t, D, s) in P + {C} || Move(t, D, s) in queue[1..] + succs
    {
      if D == C {
        assert row[s] == Move(t, C, s);
      } else {
        assert queue == [C] + queue[1..];
      }
    }
  }

  /**
    The search result together with the dead-row filter is the subset
    construction, and the list of the processed composites names every
    composite the table and the accept set mention.
  */
  lemma ExploredIsConstruction(t: Table, start: set<int>, accept: set<int>, n: nat,
                               processed: set<set<int>>, dacc: set<set<int>>, rows: CompositeTable,
                               table: CompositeTable, pl: seq<set<int>>)
    requires start in processed
    requires forall C :: C in processed ==> C <= Reach(t, start)
    requires ClosedUnderMoves(t, n, processed)
    requires forall X :: start in X && ClosedUnderMoves(t, n, X) ==> processed <= X
    requires forall C :: C in dacc <==> C in processed && C * accept != {}
    requires forall C :: C in processed ==> RowOf(rows, C) == Row(t, C, n)
    requires table == map C | C in processed && !IsDead(RowOf(rows, C)) :: RowOf(rows, C)
    requires forall C :: C in pl <==> C in processed
    ensures Elems(pl) == processed
    ensures IsSubsetConstruction(t, start, accept, n, Elems(pl), dacc, table)
    ensures start in pl && (forall C :: C in dacc ==> C in pl) && ListedIn(table, pl)
  {
    ElemsOfListing(pl, processed);
    AcceptComposites(accept, processed, dacc);
    KeptRows(t, n, processed, rows, table);
    KeptRowsListed(t, n, processed, table, pl);
    assert IsSubsetConstruction(t, start, accept, n, processed, dacc, table);
  }

  lemma ElemsOfListing(pl: seq<set<int>>, P: set<set<int>>)
    requires forall C :: C in pl <==> C in P
    ensures Elems(pl) == P
  {
    forall C | C in Elems(pl) ensures C in P { ElemsIn(pl, C); }
    forall C | C in P ensures C in Elems(pl) { ElemsIn(pl, C); }
  }

  lemma AcceptComposites(accept: set<int>, P: set<set<int>>, dacc: set<set<int>>)
    requires forall C :: C in dacc <==> C in P && C * accept != {}
    ensures dacc == set C | C in P && C * accept != {}
  {
  }

  /** The table without the dead composites keeps exactly the live processed rows. */
  lemma KeptRows(t: Table, n: nat, P: set<set<int>>, rows: CompositeTable, table: CompositeTable)
    requires forall C :: C in P ==> RowOf(rows, C) == Row(t, C, n)
    requires table == map C | C in P && !IsDead(RowOf(rows, C)) :: RowOf(rows, C)
    ensures table.Keys == set C | C in P && !IsDead(Row(t, C, n))
    ensures forall C :: C in table ==> table[C] == Row(t, C, n)
  {
  }

  /** Every destination of a kept row is processed, so the list names it. */
  lemma KeptRowsListed(t: Table, n: nat, P: set<set<int>>, table: CompositeTable, pl: seq<set<int>>)
    requires ClosedUnderMoves(t, n, P)
    requires table.Keys == set C | C in P && !IsDead(Row(t, C, n))
    requires forall C :: C in table ==> table[C] == Row(t, C, n)
    requires forall C :: C in pl <==> C in P
    ensures ListedIn(table, pl)
  {
    forall C | C in table ensures C in pl && forall s :: s in table[C] ==> table[C][s] in pl {
      forall s | s in table[C] ensures table[C][s] in pl {
        assert table[C][s] == Move(t, C, s);
      }
    }
  }

  /**
    The invariant of the renumbering loop: the rows made so far are those of
    the composites already taken from `keys`, each under its index.
  */
  ghost predicate RenumberedSoFar(dt: CompositeTable, pl: seq<set<int>>, keys: set<set<int>>, nt: Table) {
    && ListedIn(dt, pl)
    && keys <= dt.Keys
    && (forall i :: i in nt <==> exists C :: C in dt && C !in keys && i == IndexOf(pl, C))
    && (forall C :: C in dt && C !in keys ==> IndexOf(pl, C) in nt && nt[IndexOf(pl, C)] == RenumberRow(dt[C], pl))
  }

  /** Taking one more composite and storing its renumbered row keeps the invariant. */
  lemma RenumberStep(dt: CompositeTable, pl: seq<set<int>>, keys: set<set<int>>, nt: Table,
                     C: set<int>, r: map<int, set<int>>)
    requires Distinct(pl) && RenumberedSoFar(dt, pl, keys, nt) && C in keys
    requires r == RenumberRow(dt[C], pl)
    ensures RenumberedSoFar(dt, pl, keys - {C}, nt[IndexOf(pl, C) := r])
  {
    var nt' := nt[IndexOf(pl, C) := r];
    forall D | D in dt && D !in keys - {C}
      ensures IndexOf(pl, D) in nt' && nt'[IndexOf(pl, D)] == RenumberRow(dt[D], pl)
    {
      if D != C {
        IndexOfAt(pl, IndexOf(pl, D));
        IndexOfAt(pl, IndexOf(pl, C));
      }
    }
  }

  /** Once every composite is taken the table is the renumbered one. */
  lemma RenumberDone(dt: CompositeTable, pl: seq<set<int>>, nt: Table)
    requires Distinct(pl) && RenumberedSoFar(dt, pl, {}, nt)
    ensures nt == Renumber(dt, pl)
  {
    var m := Renumber(dt, pl);
    RenumberedKeys(dt, pl, nt, m);
    RenumberedRows(dt, pl, nt, m);
    assert nt.Keys == m.Keys;
  }

  lemma RenumberedKeys(dt: CompositeTable, pl: seq<set<int>>, nt: Table, m: Table)
    requires ListedIn(dt, pl) && m == Renumber(dt, pl)
    requires forall i :: i in nt <==> exists C :: C in dt && C !in {} && i == IndexOf(pl, C)
    ensures forall i :: i in nt <==> i in m
  {
    forall i ensures i in nt <==> i in m {
      if i in m {
        var C :| C in dt && i == IndexOf(pl, C);
        assert C !in {};
      }
    }
  }

  lemma RenumberedRows(dt: CompositeTable, pl: seq<set<int>>, nt: Table, m: Table)
    requires Distinct(pl) && ListedIn(dt, pl) && m == Renumber(dt, pl)
    requires forall i :: i in nt <==> exists C :: C in dt && C !in {} && i == IndexOf(pl, C)
    requires forall C :: C in dt && C !in {} ==> IndexOf(pl, C) in nt && nt[IndexOf(pl, C)] == RenumberRow(dt[C], pl)
    ensures forall i :: i in nt ==> i in m && nt[i] == m[i]
  {
    forall i | i in nt ensures i in m && nt[i] == m[i] {
      var C :| C in dt && C !in {} && i == IndexOf(pl, C);
      RenumberAt(dt, pl, C);
    }
  }
}
