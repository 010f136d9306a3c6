/**
  The table-filling minimisation of a deterministic automaton whose states
  are 0..n-1: the distinguishability table M (None: not yet distinguished;
  Some(-1): the two states differ in acceptance; Some(s): distinguished
  through symbol s), its fixpoint loop, and the scan that assigns class ids.
*/
module Minimization {
  import opened Wrappers
  import opened Transitions

  // ---------------------------------------------------------------------
  // The element `list(s)[0]` and `next(iter(s))` take from a destination set

  /**
    The element the source takes from a destination set. Which one CPython
    yields depends on the set's layout; the model fixes the least one, so
    both places that take an element agree, as they do in the source.
  */
  function Pick(s: set<int>): (x: int)
    requires s != {}
    ensures x in s && forall y :: y in s ==> x <= y
  {
    MinExists(s);
    var x :| IsLeast(s, x); x
  }

  predicate IsLeast(s: set<int>, x: int) {
    x in s && forall y :: y in s ==> x <= y
  }

  lemma MinExists(s: set<int>)
    requires s != {}
    ensures exists x :: IsLeast(s, x)
    decreases |s|
  {
    assert (forall y :: y !in s) ==> s == {};
    var e :| e in s;
    if s == {e} {
      assert IsLeast(s, e);
    } else {
      var rest := s - {e};
      MinExists(rest);
      var m :| IsLeast(rest, m);
      var x := if e < m then e else m;
      forall y | y in s ensures x <= y {
        if y != e { assert y in rest; }
      }
      assert IsLeast(s, x);
    }
  }

  // ---------------------------------------------------------------------
  // The shape of table the algorithm indexes, and the relations it computes

  /**
    What `minimize` relies on about the pruned table: its states are exactly
    0..n-1 (the matrix is indexed by raw state ids), and every state has a
    non-empty destination set on every symbol of [0, alpha) whose chosen
    element is again a state.
  */
  ghost predicate Minimizable(t: Table, n: nat, alpha: nat) {
    && (forall q :: q in t <==> 0 <= q < n)
    && (forall q, s :: 0 <= q < n && 0 <= s < alpha ==>
          q in t && s in t[q] && t[q][s] != {} && 0 <= Pick(t[q][s]) < n)
  }

  /** The successor of q on s that the algorithm uses. */
  ghost function Next(t: Table, n: nat, alpha: nat, q: int, s: int): (d: int)
    requires Minimizable(t, n, alpha) && 0 <= q < n && 0 <= s < alpha
    ensures 0 <= d < n && d in t[q][s]
  {
    Pick(t[q][s])
  }

  /**
    Z relates only states that agree on acceptance and whose successors on
    every symbol are again related: no string distinguishes a pair in Z.
  */
  ghost predicate Consistent(t: Table, n: nat, alpha: nat, accept: set<int>, Z: set<(int, int)>)
    requires Minimizable(t, n, alpha)
  {
    forall i, j :: (i, j) in Z ==>
      && 0 <= i < n && 0 <= j < n
      && (i in accept <==> j in accept)
      && forall s :: 0 <= s < alpha ==> (Next(t, n, alpha, i, s), Next(t, n, alpha, j, s)) in Z
  }

  ghost predicate IsEquivalence(E: set<(int, int)>, n: nat) {
    && (forall i, j :: (i, j) in E ==> 0 <= i < n && 0 <= j < n)
    && (forall i :: 0 <= i < n ==> (i, i) in E)
    && (forall i, j :: (i, j) in E ==> (j, i) in E)
    && (forall i, j, k :: (i, j) in E && (j, k) in E ==> (i, k) in E)
  }

  /**
    The greatest consistent relation is an equivalence: so the pairwise
    "undistinguished" relation the algorithm leaves is already transitive,
    and the class ids built from it do not depend on the scan order.
  */
  lemma GreatestConsistentIsEquivalence(t: Table, n: nat, alpha: nat, accept: set<int>, E: set<(int, int)>)
    requires Minimizable(t, n, alpha)
    requires Consistent(t, n, alpha, accept, E)
    requires forall Z :: Consistent(t, n, alpha, accept, Z) ==> Z <= E
    ensures IsEquivalence(E, n)
  {
    var D := set i | 0 <= i < n :: (i, i);
    DiagonalConsistent(t, n, alpha, accept, D);
    assert D <= E;
    forall i | 0 <= i < n ensures (i, i) in E {
      assert (i, i) in D;
    }
    var R := set p | p in E :: (p.1, p.0);
    ConverseConsistent(t, n, alpha, accept, E, R);
    assert R <= E;
    forall i, j | (i, j) in E ensures (j, i) in E {
      assert (j, i) in R;
    }
    var T := set p, q | p in E && q in E && p.1 == q.0 :: (p.0, q.1);
    ComposeConsistent(t, n, alpha, accept, E, T);
    assert T <= E;
    forall i, j, k | (i, j) in E && (j, k) in E ensures (i, k) in E {
      assert (i, k) in T;
    }
  }

  /** The identity relation is consistent. */
  lemma DiagonalConsistent(t: Table, n: nat, alpha: nat, accept: set<int>, D: set<(int, int)>)
    requires Minimizable(t, n, alpha)
    requires D == set i | 0 <= i < n :: (i, i)
    ensures Consistent(t, n, alpha, accept, D)
  {
    forall i, j | (i, j) in D
      ensures 0 <= i < n && 0 <= j < n && (i in accept <==> j in accept)
      ensures forall s :: 0 <= s < alpha ==> (Next(t, n, alpha, i, s), Next(t, n, alpha, j, s)) in D
    {
      forall s | 0 <= s < alpha
        ensures (Next(t, n, alpha, i, s), Next(t, n, alpha, j, s)) in D
      {
        var d := Next(t, n, alpha, i, s);
        assert (d, d) in D;
      }
    }
  }

  /** The converse of a consistent relation is consistent. */
  lemma ConverseConsistent(t: Table, n: nat, alpha: nat, accept: set<int>, E: set<(int, int)>, R: set<(int, int)>)
    requires Minimizable(t, n, alpha)
    requires Consistent(t, n, alpha, accept, E)
    requires R == set p | p in E :: (p.1, p.0)
    ensures Consistent(t, n, alpha, accept, R)
  {
    forall i, j | (i, j) in R
      ensures 0 <= i < n && 0 <= j < n && (i in accept <==> j in accept)
      ensures forall s :: 0 <= s < alpha ==> (Next(t, n, alpha, i, s), Next(t, n, alpha, j, s)) in R
    {
      assert (j, i) in E;
      forall s | 0 <= s < alpha
        ensures (Next(t, n, alpha, i, s), Next(t, n, alpha, j, s)) in R
      {
        assert (Next(t, n, alpha, j, s), Next(t, n, alpha, i, s)) in E;
      }
    }
  }

  /** The composition of a consistent relation with itself is consistent. */
  lemma ComposeConsistent(t: Table, n: nat, alpha: nat, accept: set<int>, E: set<(int, int)>, T: set<(int, int)>)
    requires Minimizable(t, n, alpha)
    requires Consistent(t, n, alpha, accept, E)
    requires T == set p, q | p in E && q in E && p.1 == q.0 :: (p.0, q.1)
    ensures Consistent(t, n, alpha, accept, T)
  {
    forall i, k | (i, k) in T
      ensures 0 <= i < n && 0 <= k < n && (i in accept <==> k in accept)
      ensures forall s :: 0 <= s < alpha ==> (Next(t, n, alpha, i, s), Next(t, n, alpha, k, s)) in T
    {
      var p, q :| p in E && q in E && p.1 == q.0 && (i, k) == (p.0, q.1);
      var j := p.1;
      assert (i, j) in E && (j, k) in E;
      forall s | 0 <= s < alpha
        ensures (Next(t, n, alpha, i, s), Next(t, n, alpha, k, s)) in T
      {
        var p' := (Next(t, n, alpha, i, s), Next(t, n, alpha, j, s));
        var q' := (Next(t, n, alpha, j, s), Next(t, n, alpha, k, s));
        assert p' in E && q' in E;
      }
    }
  }

  // ---------------------------------------------------------------------
  // The distinguishability table

  type Marks = array2<Option<int>>

  /** The pairs the table has not distinguished. */
  ghost function Unmarked(M: Marks): set<(int, int)>
    reads M
  {
    set i, j | 0 <= i < M.Length0 && 0 <= j < M.Length1 && M[i, j].None? :: (i, j)
  }

  lemma UnmarkedIs(M: Marks)
    ensures forall i, j :: (i, j) in Unmarked(M) <==> 0 <= i < M.Length0 && 0 <= j < M.Length1 && M[i, j].None?
  {
  }

  lemma UnmarkedAt(M: Marks, i: int, j: int)
    ensures (i, j) in Unmarked(M) <==> 0 <= i < M.Length0 && 0 <= j < M.Length1 && M[i, j].None?
  {
  }

  ghost predicate Symmetric(M: Marks)
    reads M
  {
    forall i, j :: 0 <= i < M.Length0 && 0 <= j < M.Length1 ==>
      i < M.Length1 && j < M.Length0 && M[i, j] == M[j, i]
  }

  ghost predicate DiagonalUnmarked(M: Marks)
    reads M
  {
    forall i :: 0 <= i < M.Length0 && i < M.Length1 ==> M[i, i].None?
  }

  /** The table before the fixpoint loop: exactly the pairs that differ in acceptance are marked. */
  ghost predicate InitiallyMarked(M: Marks, accept: set<int>)
    reads M
  {
    forall i, j :: 0 <= i < M.Length0 && 0 <= j < M.Length1 ==>
      M[i, j] == if (i in accept) != (j in accept) then Some(-1) else None
  }

  /** Marks are never cleared or rewritten. */
  twostate predicate MarksKept(M: Marks)
    reads M
  {
    forall i, j :: 0 <= i < M.Length0 && 0 <= j < M.Length1 && old(M[i, j]).Some? ==>
      M[i, j] == old(M[i, j])
  }

  /** Every pair (i, j) of U with i < j from the first `rows` rows has its successor pairs in U. */
  ghost predicate UpperStable(t: Table, n: nat, alpha: nat, U: set<(int, int)>, rows: int)
    requires Minimizable(t, n, alpha)
  {
    forall i, j, s :: 0 <= i < n && i < rows && i < j < n && (i, j) in U && 0 <= s < alpha ==>
      (Next(t, n, alpha, i, s), Next(t, n, alpha, j, s)) in U
  }

  /** The same for row i, up to column `cols`. */
  ghost predicate RowStable(t: Table, n: nat, alpha: nat, U: set<(int, int)>, i: int, cols: int)
    requires Minimizable(t, n, alpha)
  {
    forall j, s :: 0 <= i < j < n && j < cols && (i, j) in U && 0 <= s < alpha ==>
      (Next(t, n, alpha, i, s), Next(t, n, alpha, j, s)) in U
  }

  /** nfa.py:199-204: mark every pair that differs in acceptance. */
  method InitialMarks(n: nat, accept: set<int>) returns (M: Marks)
    ensures fresh(M) && M.Length0 == n && M.Length1 == n
    ensures InitiallyMarked(M, accept)
  {
    M := new Option<int>[n, n]((i, j) => None);
    for i := 0 to n
      invariant forall a, b :: 0 <= a < n && 0 <= b < n ==>
        M[a, b] == if (a < i || b < i) && (a in accept) != (b in accept) then Some(-1) else None
    {
      for j := i + 1 to n
        invariant forall a, b :: 0 <= a < n && 0 <= b < n ==>
          M[a, b] == if (a < i || b < i || (a == i && i < b < j) || (b == i && i < a < j))
                        && (a in accept) != (b in accept) then Some(-1) else None
      {
        if (i in accept) != (j in accept) {
          M[i, j] := Some(-1);
          M[j, i] := Some(-1);
        }
      }
    }
  }

  /**
    nfa.py:211-219 for one pair i < j: mark it through the first symbol whose
    successor pair is already marked, unless it is marked already.
  */
  method VisitPair(t: Table, n: nat, alpha: nat, accept: set<int>, M: Marks, i: int, j: int)
    returns (marked: bool)
    requires Minimizable(t, n, alpha) && M.Length0 == n && M.Length1 == n
    requires 0 <= i < j < n
    requires Symmetric(M)
    modifies M
    ensures Symmetric(M) && MarksKept(M)
    ensures forall a, b :: 0 <= a < n && 0 <= b < n && (a, b) != (i, j) && (a, b) != (j, i) ==>
      M[a, b] == old(M[a, b])
    ensures marked ==> (
      && old(M[i, j]).None? && M[i, j].Some?
      && exists s :: 0 <= s < alpha && M[i, j] == Some(s) &&
           old(M[Next(t, n, alpha, i, s), Next(t, n, alpha, j, s)]).Some?)
    ensures marked ==> M[i, j].Some? && forall x :: 0 <= x < M[i, j].value ==>
      old(M[Next(t, n, alpha, i, x), Next(t, n, alpha, j, x)]).None?
    ensures !marked ==> M[i, j] == old(M[i, j])
    ensures !marked && (i, j) in Unmarked(M) ==>
      forall s :: 0 <= s < alpha ==> (Next(t, n, alpha, i, s), Next(t, n, alpha, j, s)) in Unmarked(M)
    ensures marked ==> (i, j) in old(Unmarked(M)) && Unmarked(M) == old(Unmarked(M)) - {(i, j), (j, i)}
    ensures !marked ==> Unmarked(M) == old(Unmarked(M))
    ensures forall Z :: Consistent(t, n, alpha, accept, Z) && Z <= old(Unmarked(M)) ==> Z <= Unmarked(M)
  {
    ghost var U0 := Unmarked(M);
    UnmarkedIs(M);
    marked := false;
    var s := 0;
    while s < alpha
      invariant 0 <= s <= alpha
      invariant forall a, b :: 0 <= a < n && 0 <= b < n ==> M[a, b] == old(M[a, b])
      invariant M[i, j].None? ==>
        forall x :: 0 <= x < s ==> M[Next(t, n, alpha, i, x), Next(t, n, alpha, j, x)].None?
    {
      var ii := Pick(t[i][s]);
      var ji := Pick(t[j][s]);
      if M[i, j].None? && M[ii, ji].Some? {
        assert forall x :: 0 <= x < s ==> old(M[Next(t, n, alpha, i, x), Next(t, n, alpha, j, x)]).None?;
        M[i, j] := Some(s);
        M[j, i] := Some(s);
        marked := true;
        UnmarkedIs(M);
        assert (i, j) in U0;
        assert Unmarked(M) == U0 - {(i, j), (j, i)};
        MarkKeepsConsistent(t, n, alpha, accept, U0, Unmarked(M), i, j, s);
        return;
      }
      s := s + 1;
    }
    UnmarkedIs(M);
    assert Unmarked(M) == U0;
  }

  /**
    Removing a pair whose successor pair on some symbol is already removed
    keeps every consistent relation that was inside the unmarked set inside it.
  */
  lemma MarkKeepsConsistent(t: Table, n: nat, alpha: nat, accept: set<int>, U: set<(int, int)>,
                            U': set<(int, int)>, i: int, j: int, s: int)
    requires Minimizable(t, n, alpha) && 0 <= i < n && 0 <= j < n && 0 <= s < alpha
    requires U' == U - {(i, j), (j, i)}
    requires (Next(t, n, alpha, i, s), Next(t, n, alpha, j, s)) !in U
    requires (Next(t, n, alpha, j, s), Next(t, n, alpha, i, s)) !in U
    ensures forall Z :: Consistent(t, n, alpha, accept, Z) && Z <= U ==> Z <= U'
  {
    forall Z | Consistent(t, n, alpha, accept, Z) && Z <= U ensures Z <= U' {
      var ii, ji := Next(t, n, alpha, i, s), Next(t, n, alpha, j, s);
      assert (i, j) in Z ==> (ii, ji) in Z;
      assert (j, i) in Z ==> (ji, ii) in Z;
    }
  }

  /** nfa.py:209-219 for one row i: visit the pairs (i, j) for j = i+1..n-1. */
  method ScanRow(t: Table, n: nat, alpha: nat, accept: set<int>, M: Marks, i: int) returns (changed: bool)
    requires Minimizable(t, n, alpha) && M.Length0 == n && M.Length1 == n && 0 <= i < n
    requires Symmetric(M) && DiagonalUnmarked(M)
    modifies M
    ensures Symmetric(M) && DiagonalUnmarked(M) && MarksKept(M)
    ensures Unmarked(M) <= old(Unmarked(M))
    ensures changed ==> Unmarked(M) < old(Unmarked(M))
    ensures !changed ==> Unmarked(M) == old(Unmarked(M)) && RowStable(t, n, alpha, Unmarked(M), i, n)
    ensures forall Z :: Consistent(t, n, alpha, accept, Z) && Z <= old(Unmarked(M)) ==> Z <= Unmarked(M)
  {
    changed := false;
    ghost var U0 := Unmarked(M);
    for j := i + 1 to n
      invariant Symmetric(M) && DiagonalUnmarked(M) && MarksKept(M)
      invariant Unmarked(M) <= U0
      invariant changed ==> Unmarked(M) < U0
      invariant !changed ==> Unmarked(M) == U0 && RowStable(t, n, alpha, U0, i, j)
      invariant forall Z :: Consistent(t, n, alpha, accept, Z) && Z <= U0 ==> Z <= Unmarked(M)
    {
      ghost var Ub := Unmarked(M);
      ghost var was := changed;
      var marked := VisitPair(t, n, alpha, accept, M, i, j);
      if marked {
        changed := true;
      }
      ScanStep(t, n, alpha, accept, U0, Ub, Unmarked(M), i, j, marked, was);
    }
  }

  /** What one visited pair does to the set of unmarked pairs of the scanned row. */
  lemma ScanStep(t: Table, n: nat, alpha: nat, accept: set<int>, U0: set<(int, int)>, Ub: set<(int, int)>,
                 Ua: set<(int, int)>, i: int, j: int, marked: bool, was: bool)
    requires Minimizable(t, n, alpha) && 0 <= i < j < n
    requires Ub <= U0
    requires was ==> Ub < U0
    requires !was ==> Ub == U0 && RowStable(t, n, alpha, U0, i, j)
    requires forall Z :: Consistent(t, n, alpha, accept, Z) && Z <= U0 ==> Z <= Ub
    requires marked ==> (i, j) in Ub && Ua == Ub - {(i, j), (j, i)}
    requires !marked ==> Ua == Ub
    requires !marked && (i, j) in Ua ==>
      forall s :: 0 <= s < alpha ==> (Next(t, n, alpha, i, s), Next(t, n, alpha, j, s)) in Ua
    requires forall Z :: Consistent(t, n, alpha, accept, Z) && Z <= Ub ==> Z <= Ua
    ensures Ua <= U0
    ensures was || marked ==> Ua < U0
    ensures !(was || marked) ==> Ua == U0 && RowStable(t, n, alpha, U0, i, j + 1)
    ensures forall Z :: Consistent(t, n, alpha, accept, Z) && Z <= U0 ==> Z <= Ua
  {
    if marked {
      assert (i, j) !in Ua;
    }
  }

  /** One full scan of the pairs i < j (the body of `while changed`, nfa.py:208-219). */
  method Pass(t: Table, n: nat, alpha: nat, accept: set<int>, M: Marks) returns (changed: bool)
    requires Minimizable(t, n, alpha) && M.Length0 == n && M.Length1 == n
    requires Symmetric(M) && DiagonalUnmarked(M)
    modifies M
    ensures Symmetric(M) && DiagonalUnmarked(M) && MarksKept(M)
    ensures Unmarked(M) <= old(Unmarked(M))
    ensures changed ==> Unmarked(M) < old(Unmarked(M))
    ensures !changed ==> Unmarked(M) == old(Unmarked(M)) && UpperStable(t, n, alpha, Unmarked(M), n)
    ensures forall Z :: Consistent(t, n, alpha, accept, Z) && Z <= old(Unmarked(M)) ==> Z <= Unmarked(M)
  {
    changed := false;
    ghost var U0 := Unmarked(M);
    for i := 0 to n
      invariant Symmetric(M) && DiagonalUnmarked(M) && MarksKept(M)
      invariant Unmarked(M) <= U0
      invariant changed ==> Unmarked(M) < U0
      invariant !changed ==> Unmarked(M) == U0 && UpperStable(t, n, alpha, U0, i)
      invariant forall Z :: Consistent(t, n, alpha, accept, Z) && Z <= U0 ==> Z <= Unmarked(M)
    {
      var rowChanged := ScanRow(t, n, alpha, accept, M, i);
      if rowChanged {
        changed := true;
      }
    }
  }

  /** An unmarked table that passes the stability scan is consistent. */
  lemma StableIsConsistent(t: Table, n: nat, alpha: nat, accept: set<int>, M: Marks)
    requires Minimizable(t, n, alpha) && M.Length0 == n && M.Length1 == n
    requires Symmetric(M) && DiagonalUnmarked(M) && UpperStable(t, n, alpha, Unmarked(M), n)
    requires forall i, j :: 0 <= i < n && 0 <= j < n && (i in accept) != (j in accept) ==> M[i, j].Some?
    ensures Consistent(t, n, alpha, accept, Unmarked(M))
  {
    forall i, j | (i, j) in Unmarked(M)
      ensures 0 <= i < n && 0 <= j < n && (i in accept <==> j in accept)
      ensures forall s :: 0 <= s < alpha ==> (Next(t, n, alpha, i, s), Next(t, n, alpha, j, s)) in Unmarked(M)
    {
      UnmarkedAt(M, i, j);
      forall s | 0 <= s < alpha
        ensures (Next(t, n, alpha, i, s), Next(t, n, alpha, j, s)) in Unmarked(M)
      {
        var ii, ji := Next(t, n, alpha, i, s), Next(t, n, alpha, j, s);
        UnmarkedAt(M, ii, ji);
        if j < i {
          UnmarkedAt(M, j, i);
          UnmarkedAt(M, ji, ii);
        }
      }
    }
  }

  /**
    nfa.py:206-219: repeat the scan until a pass marks nothing. The table left
    is symmetric, keeps every mark it started with, its unmarked pairs form a
    consistent relation, and every consistent relation lies inside it: two
    states stay unmarked exactly when no string tells them apart.
  */
  method Refine(t: Table, n: nat, alpha: nat, accept: set<int>, M: Marks)
    requires Minimizable(t, n, alpha) && M.Length0 == n && M.Length1 == n
    requires InitiallyMarked(M, accept)
    modifies M
    ensures Symmetric(M) && DiagonalUnmarked(M) && MarksKept(M)
    ensures Consistent(t, n, alpha, accept, Unmarked(M))
    ensures forall Z :: Consistent(t, n, alpha, accept, Z) ==> Z <= Unmarked(M)
  {
    forall Z | Consistent(t, n, alpha, accept, Z) ensures Z <= Unmarked(M) {
      forall p | p in Z ensures p in Unmarked(M) {
        UnmarkedAt(M, p.0, p.1);
      }
    }
    var changed := true;
    while changed
      invariant Symmetric(M) && DiagonalUnmarked(M) && MarksKept(M)
      invariant forall Z :: Consistent(t, n, alpha, accept, Z) ==> Z <= Unmarked(M)
      invariant !changed ==> UpperStable(t, n, alpha, Unmarked(M), n)
      decreases Unmarked(M), if changed then 1 else 0
    {
      changed := Pass(t, n, alpha, accept, M);
    }
    assert forall i, j :: 0 <= i < n && 0 <= j < n && (i in accept) != (j in accept) ==> M[i, j].Some? by {
      forall i, j | 0 <= i < n && 0 <= j < n && (i in accept) != (j in accept) ensures M[i, j].Some? {
        assert old(M[i, j]) == Some(-1);
      }
    }
    StableIsConsistent(t, n, alpha, accept, M);
  }

  // ---------------------------------------------------------------------
  // Numbering the classes (nfa.py:221-248)

  /** `new_states_map.get(target, target)`: the class id when there is one, the raw state otherwise. */
  function Lookup(ids: map<int, int>, x: int): (y: int)
    ensures x in ids ==> y == ids[x]
    ensures x !in ids ==> y == x
  {
    if x in ids then ids[x] else x
  }

  /** The pair (a, b) comes before position (i, j) of the row-major scan. */
  predicate Before(a: int, b: int, i: int, j: int) {
    a < i || (a == i && b < j)
  }

  /** q belongs to an undistinguished pair a < b that the scan has passed. */
  ghost predicate Covered(E: set<(int, int)>, n: nat, i: int, j: int, q: int) {
    exists a, b :: 0 <= a < b < n && Before(a, b, i, j) && (a, b) in E && (q == a || q == b)
  }

  /**
    Every destination recorded for class c on symbol s comes from the row of
    a state q of that class: the chosen target of that row, either raw or
    replaced by its class id.
  */
  ghost predicate RowsFrom(t: Table, ids: map<int, int>, table: map<int, map<int, int>>, count: int) {
    && (forall c :: c in table ==> 0 <= c < count)
    && (forall c, s :: c in table && s in table[c] ==>
          exists q :: q in ids && ids[q] == c && q in t && s in t[q] && t[q][s] != {} &&
            (table[c][s] == Pick(t[q][s]) || (Pick(t[q][s]) in ids && table[c][s] == ids[Pick(t[q][s])])))
  }

  /**
    The ids handed out once the scan reaches position (i, j): exactly the
    passed states have one, two of them share one exactly when they are
    undistinguished, and the ids used are 0..count-1.
  */
  ghost predicate Numbered(E: set<(int, int)>, n: nat, i: int, j: int, ids: map<int, int>, count: nat,
                           leaders: seq<int>) {
    && (forall q :: q in ids <==> Covered(E, n, i, j, q))
    && (forall x, y :: x in ids && y in ids ==> (ids[x] == ids[y] <==> (x, y) in E))
    && (forall x :: x in ids ==> 0 <= ids[x] < count)
    && |leaders| == count
    && (forall c :: 0 <= c < |leaders| ==> leaders[c] in ids && ids[leaders[c]] == c)
    && count <= |ids|
  }

  /** The accept set holds exactly the ids of accept states. */
  ghost predicate AcceptIds(accept: set<int>, ids: map<int, int>, acc: set<int>) {
    && (forall x :: x in ids && x in accept ==> ids[x] in acc)
    && (forall c :: c in acc ==> exists x :: x in ids && x in accept && ids[x] == c)
  }

  /** What the scan has built once it reaches position (i, j). */
  ghost predicate ClassesSoFar(t: Table, n: nat, alpha: nat, accept: set<int>, E: set<(int, int)>, i: int, j: int,
                               ids: map<int, int>, count: nat, table: map<int, map<int, int>>, acc: set<int>,
                               leaders: seq<int>)
  {
    && Numbered(E, n, i, j, ids, count, leaders) && LeadersOrdered(ids, leaders, i)
    && AcceptIds(accept, ids, acc)
    && RowsFrom(t, ids, table, count) && RowsFull(table, count, alpha)
  }

  /**
    The leaders come in ascending order, none lies past the current row i,
    and no member of a class lies below its leader: so each class's leader is
    its least member.
  */
  ghost predicate LeadersOrdered(ids: map<int, int>, leaders: seq<int>, i: int) {
    && (forall a, b :: 0 <= a < b < |leaders| ==> leaders[a] < leaders[b])
    && (forall c :: 0 <= c < |leaders| ==> leaders[c] <= i)
    && (forall x :: x in ids && 0 <= ids[x] < |leaders| ==> leaders[ids[x]] <= x)
  }

  /**
    The classes are numbered in the order of their least members: a class
    with a smaller id has a member below every member of a class with a
    larger id.
  */
  ghost predicate NumberedByLeastMember(ids: map<int, int>) {
    forall x, y :: x in ids && y in ids && ids[x] < ids[y] ==> exists z :: z in ids && ids[z] == ids[x] && z < y
  }

  /** Over a non-empty alphabet, every class has a row with an entry on every symbol of [0, alpha). */
  ghost predicate RowsFull(table: map<int, map<int, int>>, count: int, alpha: nat) {
    forall c :: 0 <= c < count && 0 < alpha ==> c in table && forall s :: 0 <= s < alpha ==> s in table[c]
  }

  /** The undistinguished pairs agree on acceptance. */
  ghost predicate RespectsAccept(E: set<(int, int)>, accept: set<int>) {
    forall a, b :: (a, b) in E ==> (a in accept <==> b in accept)
  }

  /** nfa.py:239-245: copy the non-empty destinations of one row into class c's row. */
  method WriteRow(row: map<int, set<int>>, c: int, ids: map<int, int>, table: map<int, map<int, int>>)
    returns (table': map<int, map<int, int>>)
    ensures forall d :: d != c ==> (d in table' <==> d in table) && (d in table ==> table'[d] == table[d])
    ensures c in table' <==> c in table || exists s :: s in row && row[s] != {}
    ensures c in table' ==> forall s :: s in row && row[s] != {} ==>
      s in table'[c] && table'[c][s] == Lookup(ids, Pick(row[s]))
    ensures c in table' ==> forall s :: s in table'[c] && !(s in row && row[s] != {}) ==>
      c in table && s in table[c] && table'[c][s] == table[c][s]
  {
    table' := table;
    var rest := row.Keys;
    while rest != {}
      invariant rest <= row.Keys
      invariant forall d :: d != c ==> (d in table' <==> d in table) && (d in table ==> table'[d] == table[d])
      invariant c in table' <==> c in table || exists s :: s in row && s !in rest && row[s] != {}
      invariant c in table' ==> forall s :: s in row && s !in rest && row[s] != {} ==>
        s in table'[c] && table'[c][s] == Lookup(ids, Pick(row[s]))
      invariant c in table' ==> forall s :: s in table'[c] && !(s in row && s !in rest && row[s] != {}) ==>
        c in table && s in table[c] && table'[c][s] == table[c][s]
      decreases rest
    {
      assert (forall y :: y !in rest) ==> rest == {};
      var s :| s in rest;
      if row[s] != {} {
        var inner := if c in table' then table'[c] else map[];
        table' := table'[c := inner[s := Lookup(ids, Pick(row[s]))]];
      }
      rest := rest - {s};
    }
  }

  lemma CoveredStep(E: set<(int, int)>, n: nat, i: int, j: int, q: int)
    requires 0 <= i < j < n
    ensures Covered(E, n, i, j + 1, q) <==> Covered(E, n, i, j, q) || ((i, j) in E && (q == i || q == j))
  {
    if Covered(E, n, i, j + 1, q) {
      var a, b :| 0 <= a < b < n && Before(a, b, i, j + 1) && (a, b) in E && (q == a || q == b);
      if !(a == i && b == j) {
        assert Before(a, b, i, j);
      }
    }
    if (i, j) in E && (q == i || q == j) {
      assert Before(i, j, i, j + 1);
    }
  }

  lemma CoveredNextRow(E: set<(int, int)>, n: nat, i: int, q: int)
    requires 0 <= i < n
    ensures Covered(E, n, i, n, q) <==> Covered(E, n, i + 1, i + 2, q)
  {
    if Covered(E, n, i, n, q) {
      var a, b :| 0 <= a < b < n && Before(a, b, i, n) && (a, b) in E && (q == a || q == b);
      assert Before(a, b, i + 1, i + 2);
    }
    if Covered(E, n, i + 1, i + 2, q) {
      var a, b :| 0 <= a < b < n && Before(a, b, i + 1, i + 2) && (a, b) in E && (q == a || q == b);
      assert Before(a, b, i, n);
    }
  }

  /**
    A state the scan has passed that is undistinguished from i makes i
    itself passed: so a state first met as a row leader is related to none
    of the states numbered before it.
  */
  lemma LinkedIsCovered(E: set<(int, int)>, n: nat, i: int, j: int)
    requires IsEquivalence(E, n) && 0 <= i < j <= n
    ensures forall y :: Covered(E, n, i, j, y) && (i, y) in E ==> Covered(E, n, i, j, i)
  {
    forall y | Covered(E, n, i, j, y) && (i, y) in E ensures Covered(E, n, i, j, i) {
      var a, b :| 0 <= a < b < n && Before(a, b, i, j) && (a, b) in E && (y == a || y == b);
      assert (i, a) in E by {
        if y == b {
          assert (b, a) in E;
        }
      }
      if a < i {
        assert (a, i) in E && Before(a, i, i, j);
      }
    }
  }

  /** The instances of reflexivity, symmetry and transitivity one merge step needs. */
  ghost predicate LinkedPair(E: set<(int, int)>, i: int, j: int) {
    && (i, i) in E && (j, j) in E && (i, j) in E && (j, i) in E
    && (forall y :: (i, y) in E <==> (j, y) in E)
    && (forall y :: (i, y) in E <==> (y, i) in E)
    && (forall y :: (j, y) in E <==> (y, j) in E)
  }

  lemma Linked(E: set<(int, int)>, n: nat, i: int, j: int)
    requires IsEquivalence(E, n) && (i, j) in E
    ensures LinkedPair(E, i, j)
  {
  }

  /** The pair (i, j) is undistinguished and i has no id yet: i opens a new class, and j joins it. */
  lemma NumberFresh(E: set<(int, int)>, n: nat, i: int, j: int, ids: map<int, int>, count: nat,
                    leaders: seq<int>)
    requires 0 <= i < j < n && LinkedPair(E, i, j)
    requires forall y :: Covered(E, n, i, j, y) && (i, y) in E ==> Covered(E, n, i, j, i)
    requires Numbered(E, n, i, j, ids, count, leaders) && i !in ids
    ensures j !in ids
    ensures Numbered(E, n, i, j + 1, ids[i := count][j := count], count + 1, leaders + [i])
  {
    assert forall y :: y in ids ==> (i, y) !in E;
    assert j !in ids;
    var ids' := ids[i := count][j := count];
    forall q ensures q in ids' <==> Covered(E, n, i, j + 1, q) {
      CoveredStep(E, n, i, j, q);
    }
    FreshSameIds(E, ids, ids', count, i, j);
    FreshLeaders(ids, ids', count, leaders, i, j);
  }

  /** Two fresh states sharing the new id relate to each other and to no state numbered before. */
  lemma FreshSameIds(E: set<(int, int)>, ids: map<int, int>, ids': map<int, int>, count: nat, i: int, j: int)
    requires ids' == ids[i := count][j := count] && i !in ids && j !in ids
    requires LinkedPair(E, i, j)
    requires forall y :: y in ids ==> (i, y) !in E
    requires forall x, y :: x in ids && y in ids ==> (ids[x] == ids[y] <==> (x, y) in E)
    requires forall x :: x in ids ==> 0 <= ids[x] < count
    ensures forall x, y :: x in ids' && y in ids' ==> (ids'[x] == ids'[y] <==> (x, y) in E)
  {
    forall x, y | x in ids' && y in ids' ensures ids'[x] == ids'[y] <==> (x, y) in E {
      if x in ids && y in ids {
        assert ids'[x] == ids[x] && ids'[y] == ids[y];
      } else if x in ids {
        assert ids'[y] == count && ids[x] < count;
        assert (x, y) !in E;
      } else if y in ids {
        assert ids'[x] == count && ids[y] < count;
        assert (x, y) !in E;
      } else {
        assert (x == i || x == j) && (y == i || y == j);
      }
    }
  }

  /** The new class's leader is i, and the earlier leaders keep their ids. */
  lemma FreshLeaders(ids: map<int, int>, ids': map<int, int>, count: nat, leaders: seq<int>, i: int, j: int)
    requires ids' == ids[i := count][j := count] && i !in ids && j !in ids && i != j
    requires |leaders| == count && count <= |ids|
    requires forall c :: 0 <= c < |leaders| ==> leaders[c] in ids && ids[leaders[c]] == c
    requires forall x :: x in ids ==> 0 <= ids[x] < count
    ensures forall x :: x in ids' ==> 0 <= ids'[x] < count + 1
    ensures var leaders' := leaders + [i];
      forall c :: 0 <= c < |leaders'| ==> leaders'[c] in ids' && ids'[leaders'[c]] == c
    ensures count + 1 <= |ids'|
  {
    var leaders' := leaders + [i];
    forall c | 0 <= c < |leaders'| ensures leaders'[c] in ids' && ids'[leaders'[c]] == c {
      if c < |leaders| {
        assert leaders'[c] == leaders[c] && leaders[c] in ids;
      }
    }
    assert |ids[i := count]| == |ids| + 1;
  }

  /** The new class's leader i lies above every earlier leader, and j lies above i. */
  lemma FreshOrdered(ids: map<int, int>, count: nat, leaders: seq<int>, i: int, j: int)
    requires i !in ids && j !in ids && i < j
    requires |leaders| == count && forall c :: 0 <= c < |leaders| ==> leaders[c] in ids
    requires forall x :: x in ids ==> 0 <= ids[x] < count
    requires LeadersOrdered(ids, leaders, i)
    ensures LeadersOrdered(ids[i := count][j := count], leaders + [i], i)
  {
    var ids', leaders' := ids[i := count][j := count], leaders + [i];
    forall a, b | 0 <= a < b < |leaders'| ensures leaders'[a] < leaders'[b] {
      if b == |leaders| {
        assert leaders[a] in ids && leaders[a] <= i;
      }
    }
    forall x | x in ids' && 0 <= ids'[x] < |leaders'| ensures leaders'[ids'[x]] <= x {
      if x != i && x != j {
        assert ids'[x] == ids[x] < |leaders|;
      }
    }
  }

  /** j takes the id of i, whose leader is at most i < j. */
  lemma KnownOrdered(ids: map<int, int>, count: nat, leaders: seq<int>, i: int, j: int)
    requires i in ids && i < j && |leaders| == count
    requires forall x :: x in ids ==> 0 <= ids[x] < count
    requires LeadersOrdered(ids, leaders, i)
    ensures LeadersOrdered(if j in ids then ids else ids[j := ids[i]], leaders, i)
  {
    if j !in ids {
      var ids' := ids[j := ids[i]];
      forall x | x in ids' && 0 <= ids'[x] < |leaders| ensures leaders[ids'[x]] <= x {
        if x != j {
          assert ids'[x] == ids[x];
        }
      }
    }
  }

  /** The pair (i, j) is undistinguished and i already has an id: j gets the same one. */
  lemma NumberKnown(E: set<(int, int)>, n: nat, i: int, j: int, ids: map<int, int>, count: nat,
                    leaders: seq<int>)
    requires 0 <= i < j < n && LinkedPair(E, i, j)
    requires Numbered(E, n, i, j, ids, count, leaders) && i in ids
    ensures Numbered(E, n, i, j + 1, if j in ids then ids else ids[j := ids[i]], count, leaders)
  {
    var ids' := if j in ids then ids else ids[j := ids[i]];
    forall q ensures q in ids' <==> Covered(E, n, i, j + 1, q) {
      CoveredStep(E, n, i, j, q);
    }
    if j !in ids {
      KnownSameIds(E, ids, ids', i, j);
      KnownLeaders(ids, ids', count, leaders, i, j);
    }
  }

  /** Giving j an id adds no class: the leaders and the count stay as they were. */
  lemma KnownLeaders(ids: map<int, int>, ids': map<int, int>, count: nat, leaders: seq<int>, i: int, j: int)
    requires i in ids && j !in ids && ids' == ids[j := ids[i]]
    requires count <= |ids| && forall x :: x in ids ==> 0 <= ids[x] < count
    requires forall c :: 0 <= c < |leaders| ==> leaders[c] in ids && ids[leaders[c]] == c
    ensures count <= |ids'| && forall x :: x in ids' ==> 0 <= ids'[x] < count
    ensures forall c :: 0 <= c < |leaders| ==> leaders[c] in ids' && ids'[leaders[c]] == c
  {
    forall c | 0 <= c < |leaders| ensures leaders[c] in ids' && ids'[leaders[c]] == c {
      assert leaders[c] in ids;
    }
  }

  /** j takes the id of i, to which it is undistinguished. */
  lemma KnownSameIds(E: set<(int, int)>, ids: map<int, int>, ids': map<int, int>, i: int, j: int)
    requires i in ids && j !in ids && ids' == ids[j := ids[i]]
    requires LinkedPair(E, i, j)
    requires forall x, y :: x in ids && y in ids ==> (ids[x] == ids[y] <==> (x, y) in E)
    ensures forall x, y :: x in ids' && y in ids' ==> (ids'[x] == ids'[y] <==> (x, y) in E)
  {
    forall x, y | x in ids' && y in ids' ensures ids'[x] == ids'[y] <==> (x, y) in E {
      if x in ids && y in ids {
        assert ids'[x] == ids[x] && ids'[y] == ids[y];
      } else if x in ids {
        assert y == j && ids'[y] == ids[i];
        assert (x, j) in E <==> (x, i) in E;
      } else if y in ids {
        assert x == j && ids'[x] == ids[i];
      }
    }
  }

  /** The pair (i, j) is distinguished: nothing changes. */
  lemma NumberSkip(E: set<(int, int)>, n: nat, i: int, j: int, ids: map<int, int>, count: nat,
                   leaders: seq<int>)
    requires 0 <= i < j < n && (i, j) !in E
    requires Numbered(E, n, i, j, ids, count, leaders)
    ensures Numbered(E, n, i, j + 1, ids, count, leaders)
  {
    forall q ensures q in ids <==> Covered(E, n, i, j + 1, q) {
      CoveredStep(E, n, i, j, q);
    }
  }

  /** Recording the destinations of row q for the class of q keeps every recorded destination explained. */
  lemma RowsAfterWrite(t: Table, ids: map<int, int>, ids': map<int, int>, table: map<int, map<int, int>>,
                       table': map<int, map<int, int>>, count: nat, count': nat, q: int)
    requires RowsFrom(t, ids, table, count)
    requires forall x :: x in ids ==> x in ids' && ids'[x] == ids[x]
    requires count <= count' && q in t && q in ids' && 0 <= ids'[q] < count'
    requires var c := ids'[q];
      && (forall d :: d != c ==> (d in table' <==> d in table) && (d in table ==> table'[d] == table[d]))
      && (c in table' <==> c in table || exists s :: s in t[q] && t[q][s] != {})
      && (c in table' ==> forall s :: s in t[q] && t[q][s] != {} ==>
            s in table'[c] && table'[c][s] == Lookup(ids', Pick(t[q][s])))
      && (c in table' ==> forall s :: s in table'[c] && !(s in t[q] && t[q][s] != {}) ==>
            c in table && s in table[c] && table'[c][s] == table[c][s])
    ensures RowsFrom(t, ids', table', count')
  {
    var c := ids'[q];
    forall d, s | d in table' && s in table'[d]
      ensures exists x :: (x in ids' && ids'[x] == d && x in t && s in t[x] && t[x][s] != {} &&
        (table'[d][s] == Pick(t[x][s]) || (Pick(t[x][s]) in ids' && table'[d][s] == ids'[Pick(t[x][s])])))
    {
      if d == c && s in t[q] && t[q][s] != {} {
        assert q in ids';
      } else {
        assert d in table && s in table[d] && table'[d][s] == table[d][s];
        var x :| x in ids && ids[x] == d && x in t && s in t[x] && t[x][s] != {} &&
          (table[d][s] == Pick(t[x][s]) || (Pick(t[x][s]) in ids && table[d][s] == ids[Pick(t[x][s])]));
        assert x in ids';
      }
    }
  }

  /**
    Copying the full row of q into the row of class c, which is an old class
    or the one just opened, keeps a row with every symbol for every class.
  */
  lemma RowsFullAfterWrite(t: Table, n: nat, alpha: nat, table: map<int, map<int, int>>,
                           table': map<int, map<int, int>>, count: nat, count': nat, q: int, c: int)
    requires Minimizable(t, n, alpha) && 0 <= q < n
    requires RowsFull(table, count, alpha)
    requires count' == count || (count' == count + 1 && c == count)
    requires 0 <= c < count'
    requires forall d :: d != c ==> (d in table' <==> d in table) && (d in table ==> table'[d] == table[d])
    requires c in table' <==> c in table || exists s :: s in t[q] && t[q][s] != {}
    requires c in table' ==> forall s :: s in t[q] && t[q][s] != {} ==> s in table'[c]
    ensures RowsFull(table', count', alpha)
  {
    forall d | 0 <= d < count' && 0 < alpha ensures d in table' && forall s :: 0 <= s < alpha ==> s in table'[d] {
      if d == c {
        assert 0 in t[q] && t[q][0] != {};
        assert c in table';
        forall s | 0 <= s < alpha ensures s in table'[d] {
          assert s in t[q] && t[q][s] != {};
        }
      } else {
        assert d < count;
        assert d in table && table'[d] == table[d];
      }
    }
  }

  /** Giving i and j the id c, and recording c when i accepts, keeps the accept ids exact. */
  lemma AcceptAfter(accept: set<int>, ids: map<int, int>, ids': map<int, int>, acc: set<int>, acc': set<int>,
                    i: int, j: int, c: int)
    requires AcceptIds(accept, ids, acc)
    requires forall x :: x in ids ==> x in ids' && ids'[x] == ids[x]
    requires forall x :: x in ids' ==> x in ids || x == i || x == j
    requires i in ids' && j in ids' && ids'[i] == c && ids'[j] == c
    requires i in accept <==> j in accept
    requires acc' == if i in accept then acc + {c} else acc
    ensures AcceptIds(accept, ids', acc')
  {
    forall d | d in acc' ensures exists x :: x in ids' && x in accept && ids'[x] == d {
      if d in acc {
        var x :| x in ids && x in accept && ids[x] == d;
        assert x in ids';
      } else {
        assert i in ids' && i in accept && ids'[i] == d;
      }
    }
  }

  /** One step of the scan at the pair (i, j). */
  method ClassPair(t: Table, n: nat, alpha: nat, accept: set<int>, ghost E: set<(int, int)>, M: Marks,
                   i: int, j: int, ids: map<int, int>, count: nat, table: map<int, map<int, int>>, acc: set<int>,
                   ghost leaders: seq<int>)
    returns (ids': map<int, int>, count': nat, table': map<int, map<int, int>>, acc': set<int>,
             ghost leaders': seq<int>)
    requires Minimizable(t, n, alpha) && M.Length0 == n && M.Length1 == n && E == Unmarked(M)
    requires IsEquivalence(E, n) && RespectsAccept(E, accept)
    requires 0 <= i < j < n
    requires ClassesSoFar(t, n, alpha, accept, E, i, j, ids, count, table, acc, leaders)
    ensures ClassesSoFar(t, n, alpha, accept, E, i, j + 1, ids', count', table', acc', leaders')
  {
    UnmarkedAt(M, i, j);
    if M[i, j].None? {
      ids', count', table', acc', leaders' := JoinPair(t, n, alpha, accept, E, i, j, ids, count, table, acc, leaders);
    } else {
      NumberSkip(E, n, i, j, ids, count, leaders);
      ids', count', table', acc', leaders' := ids, count, table, acc, leaders;
    }
  }

  /**
    nfa.py:228-247 for an undistinguished pair (i, j): i gets the next id
    unless it has one, j takes the id of i, the row of i is copied into the
    class's row, and the id is recorded when i accepts.
  */
  method JoinPair(t: Table, n: nat, alpha: nat, accept: set<int>, ghost E: set<(int, int)>,
                  i: int, j: int, ids: map<int, int>, count: nat, table: map<int, map<int, int>>, acc: set<int>,
                  ghost leaders: seq<int>)
    returns (ids': map<int, int>, count': nat, table': map<int, map<int, int>>, acc': set<int>,
             ghost leaders': seq<int>)
    requires Minimizable(t, n, alpha)
    requires IsEquivalence(E, n) && RespectsAccept(E, accept)
    requires 0 <= i < j < n && (i, j) in E
    requires ClassesSoFar(t, n, alpha, accept, E, i, j, ids, count, table, acc, leaders)
    ensures ClassesSoFar(t, n, alpha, accept, E, i, j + 1, ids', count', table', acc', leaders')
  {
    ids', count', leaders' := NumberPair(E, n, i, j, ids, count, leaders);
    var c := ids'[i];
    table' := WriteRow(t[i], c, ids', table);
    RowsAfterWrite(t, ids, ids', table, table', count, count', i);
    RowsFullAfterWrite(t, n, alpha, table, table', count, count', i, c);
    acc' := if i in accept then acc + {c} else acc;
    AcceptAfter(accept, ids, ids', acc, acc', i, j, c);
  }

  /** nfa.py:229-236: the ids after the undistinguished pair (i, j); the ids given before stay. */
  method NumberPair(ghost E: set<(int, int)>, n: nat, i: int, j: int, ids: map<int, int>, count: nat,
                    ghost leaders: seq<int>)
    returns (ids': map<int, int>, count': nat, ghost leaders': seq<int>)
    requires IsEquivalence(E, n) && 0 <= i < j < n && (i, j) in E
    requires Numbered(E, n, i, j, ids, count, leaders) && LeadersOrdered(ids, leaders, i)
    ensures Numbered(E, n, i, j + 1, ids', count', leaders') && LeadersOrdered(ids', leaders', i)
    ensures count <= count'
    ensures forall x :: x in ids ==> x in ids' && ids'[x] == ids[x]
    ensures forall x :: x in ids' ==> x in ids || x == i || x == j
    ensures i in ids' && j in ids' && ids'[j] == ids'[i] && 0 <= ids'[i] < count'
    ensures count' == count || (count' == count + 1 && ids'[i] == count)
  {
    Linked(E, n, i, j);
    if i !in ids {
      LinkedIsCovered(E, n, i, j);
      NumberFresh(E, n, i, j, ids, count, leaders);
      FreshOrdered(ids, count, leaders, i, j);
      ids', count', leaders' := ids[i := count][j := count], count + 1, leaders + [i];
    } else {
      NumberKnown(E, n, i, j, ids, count, leaders);
      KnownOrdered(ids, count, leaders, i, j);
      ids', count', leaders' := if j in ids then ids else ids[j := ids[i]], count, leaders;
    }
  }

  lemma ClassesNextRow(t: Table, n: nat, alpha: nat, accept: set<int>, E: set<(int, int)>, i: int, ids: map<int, int>,
                       count: nat, table: map<int, map<int, int>>, acc: set<int>, leaders: seq<int>)
    requires 0 <= i < n
    requires ClassesSoFar(t, n, alpha, accept, E, i, n, ids, count, table, acc, leaders)
    ensures ClassesSoFar(t, n, alpha, accept, E, i + 1, i + 2, ids, count, table, acc, leaders)
  {
    forall q ensures Covered(E, n, i, n, q) <==> Covered(E, n, i + 1, i + 2, q) {
      CoveredNextRow(E, n, i, q);
    }
    assert forall c :: 0 <= c < |leaders| ==> leaders[c] <= i + 1;
  }

  /** Once the scan is over, the passed states are those undistinguished from some other state. */
  lemma CoveredAtEnd(E: set<(int, int)>, n: nat, i: int, q: int)
    requires IsEquivalence(E, n) && n <= i
    ensures Covered(E, n, i, i + 1, q) <==> exists r :: r != q && (q, r) in E
  {
    if exists r :: r != q && (q, r) in E {
      var r :| r != q && (q, r) in E;
      if q < r {
        assert Before(q, r, i, i + 1);
      } else {
        assert (r, q) in E && Before(r, q, i, i + 1);
      }
    }
    if Covered(E, n, i, i + 1, q) {
      var a, b :| 0 <= a < b < n && Before(a, b, i, i + 1) && (a, b) in E && (q == a || q == b);
      if q == b {
        assert (b, a) in E;
      }
    }
  }

  lemma {:induction false} CardBelow(K: set<int>, n: nat)
    requires forall k :: k in K ==> 0 <= k < n
    ensures |K| <= n
    decreases n
  {
    if n == 0 {
      assert forall k :: k !in K;
      assert K == {};
    } else {
      CardBelow(K - {n - 1}, n - 1);
    }
  }

  /** The facts the finished scan establishes. */
  lemma ClassesAtEnd(t: Table, n: nat, alpha: nat, accept: set<int>, E: set<(int, int)>, ids: map<int, int>,
                     count: nat, table: map<int, map<int, int>>, acc: set<int>, leaders: seq<int>)
    requires IsEquivalence(E, n)
    requires ClassesSoFar(t, n, alpha, accept, E, n, n + 1, ids, count, table, acc, leaders)
    ensures forall q :: q in ids <==> exists r :: r != q && (q, r) in E
    ensures forall c :: c in ids.Values <==> 0 <= c < count
    ensures count <= n
  {
    forall q ensures q in ids <==> exists r :: r != q && (q, r) in E {
      CoveredAtEnd(E, n, n, q);
    }
    forall c ensures c in ids.Values <==> 0 <= c < count {
      if 0 <= c < count {
        assert ids[leaders[c]] in ids.Values;
      }
    }
    forall k | k in ids.Keys ensures 0 <= k < n {
      CoveredAtEnd(E, n, n, k);
    }
    CardBelow(ids.Keys, n);
  }

  /**
    When the classes are numbered by their least members and the ids are not
    negative, the least state with an id is in class 0.
  */
  lemma LeastStateHasIdZero(ids: map<int, int>, x: int, w: int)
    requires NumberedByLeastMember(ids)
    requires forall y :: y in ids ==> 0 <= ids[y]
    requires w in ids && ids[w] == 0
    requires x in ids && forall y :: y in ids ==> x <= y
    ensures ids[x] == 0
  {
  }

  /** At the end of the scan the classes are numbered by their least members. */
  lemma ClassesOrderedAtEnd(t: Table, n: nat, alpha: nat, accept: set<int>, E: set<(int, int)>, ids: map<int, int>,
                            count: nat, table: map<int, map<int, int>>, acc: set<int>, leaders: seq<int>)
    requires ClassesSoFar(t, n, alpha, accept, E, n, n + 1, ids, count, table, acc, leaders)
    ensures NumberedByLeastMember(ids)
  {
    LeastMembersInOrder(ids, count, leaders, n);
  }

  /** Ordered leaders number the classes by their least members. */
  lemma LeastMembersInOrder(ids: map<int, int>, count: nat, leaders: seq<int>, i: int)
    requires |leaders| == count && forall x :: x in ids ==> 0 <= ids[x] < count
    requires forall c :: 0 <= c < |leaders| ==> leaders[c] in ids && ids[leaders[c]] == c
    requires LeadersOrdered(ids, leaders, i)
    ensures NumberedByLeastMember(ids)
  {
    forall x, y | x in ids && y in ids && ids[x] < ids[y] ensures exists z :: z in ids && ids[z] == ids[x] && z < y {
      var z := leaders[ids[x]];
      assert leaders[ids[x]] < leaders[ids[y]] <= y;
      assert z in ids && ids[z] == ids[x];
    }
  }

  /** nfa.py:222-248 for one row i. */
  method ClassRow(t: Table, n: nat, alpha: nat, accept: set<int>, ghost E: set<(int, int)>, M: Marks,
                  i: int, ids: map<int, int>, count: nat, table: map<int, map<int, int>>, acc: set<int>,
                  ghost leaders: seq<int>)
    returns (ids': map<int, int>, count': nat, table': map<int, map<int, int>>, acc': set<int>,
             ghost leaders': seq<int>)
    requires Minimizable(t, n, alpha) && M.Length0 == n && M.Length1 == n && E == Unmarked(M)
    requires IsEquivalence(E, n) && RespectsAccept(E, accept)
    requires 0 <= i < n
    requires ClassesSoFar(t, n, alpha, accept, E, i, i + 1, ids, count, table, acc, leaders)
    ensures ClassesSoFar(t, n, alpha, accept, E, i + 1, i + 2, ids', count', table', acc', leaders')
  {
    ids', count', table', acc', leaders' := ids, count, table, acc, leaders;
    for j := i + 1 to n
      invariant ClassesSoFar(t, n, alpha, accept, E, i, j, ids', count', table', acc', leaders')
    {
      ids', count', table', acc', leaders' :=
        ClassPair(t, n, alpha, accept, E, M, i, j, ids', count', table', acc', leaders');
    }
    ClassesNextRow(t, n, alpha, accept, E, i, ids', count', table', acc', leaders');
  }

  /**
    nfa.py:221-248: scan the undistinguished pairs i < j in row-major order;
    the first state of each class gets the next id, the others take its id,
    each scanned row is copied into its class's row, and the ids of accept
    states are collected. The ids given out are those of the undistinguished
    classes with two or more members, numbered 0..count-1, count <= n.
  */
  method BuildClasses(t: Table, n: nat, alpha: nat, accept: set<int>, M: Marks)
    returns (ids: map<int, int>, count: nat, table: map<int, map<int, int>>, acc: set<int>)
    requires Minimizable(t, n, alpha) && M.Length0 == n && M.Length1 == n
    requires IsEquivalence(Unmarked(M), n) && RespectsAccept(Unmarked(M), accept)
    ensures forall q :: q in ids <==> exists r :: r != q && (q, r) in Unmarked(M)
    ensures forall x, y :: x in ids && y in ids ==> (ids[x] == ids[y] <==> (x, y) in Unmarked(M))
    ensures forall c :: c in ids.Values <==> 0 <= c < count
    ensures count <= n
    ensures NumberedByLeastMember(ids)
    ensures AcceptIds(accept, ids, acc)
    ensures RowsFrom(t, ids, table, count) && RowsFull(table, count, alpha)
  {
    ghost var E := Unmarked(M);
    ids, count, table, acc := map[], 0, map[], {};
    ghost var leaders: seq<int> := [];
    for i := 0 to n
      invariant ClassesSoFar(t, n, alpha, accept, E, i, i + 1, ids, count, table, acc, leaders)
    {
      ids, count, table, acc, leaders := ClassRow(t, n, alpha, accept, E, M, i, ids, count, table, acc, leaders);
    }
    ClassesAtEnd(t, n, alpha, accept, E, ids, count, table, acc, leaders);
    ClassesOrderedAtEnd(t, n, alpha, accept, E, ids, count, table, acc, leaders);
  }

  /**
    nfa.py:195-248 on a table whose states are 0..n-1: fill the
    distinguishability table, then number the classes. E, the set of pairs
    left unmarked, is the greatest consistent relation, so two states are in
    it exactly when no word separates them by the chosen successors; the ids
    partition the states of the classes of two or more members into
    0..count-1; acc holds the ids of the accept states; every recorded
    destination comes from a member's row.
  */
  method MergeStates(t: Table, n: nat, alpha: nat, accept: set<int>)
    returns (ghost E: set<(int, int)>, ids: map<int, int>, count: nat, table: map<int, map<int, int>>, acc: set<int>)
    requires Minimizable(t, n, alpha)
    ensures Consistent(t, n, alpha, accept, E)
    ensures forall Z :: Consistent(t, n, alpha, accept, Z) ==> Z <= E
    ensures IsEquivalence(E, n)
    ensures forall q :: q in ids <==> exists r :: r != q && (q, r) in E
    ensures forall x, y :: x in ids && y in ids ==> (ids[x] == ids[y] <==> (x, y) in E)
    ensures forall c :: c in ids.Values <==> 0 <= c < count
    ensures count <= n
    ensures NumberedByLeastMember(ids)
    ensures AcceptIds(accept, ids, acc)
    ensures RowsFrom(t, ids, table, count) && RowsFull(table, count, alpha)
  {
    var M := InitialMarks(n, accept);
    Refine(t, n, alpha, accept, M);
    E := Unmarked(M);
    GreatestConsistentIsEquivalence(t, n, alpha, accept, E);
    ids, count, table, acc := BuildClasses(t, n, alpha, accept, M);
  }
}
