/**
  The transition index of an automaton over integer states and symbols:
  a map from state to symbol to the set of destination states, with the
  one-step image of a state set (`Move`), its fold over a word (`Run`) and
  the set of states reachable from a start set (`Reach`).
*/
module Transitions {

  /** state -> symbol -> destination states */
  type Table = map<int, map<int, set<int>>>

  /** The destination set recorded for (q, a); empty when there is no entry. */
  function Targets(t: Table, q: int, a: int): set<int> {
    if q in t && a in t[q] then t[q][a] else {}
  }

  /** The symbols that have an entry in the row of q. */
  function Symbols(t: Table, q: int): set<int> {
    if q in t then t[q].Keys else {}
  }

  /** Every state one edge away from q, on any symbol. */
  ghost function Successors(t: Table, q: int): set<int> {
    set a, d | a in Symbols(t, q) && d in Targets(t, q, a) :: d
  }

  /** The image of the state set S under the a-edges. */
  ghost function Move(t: Table, S: set<int>, a: int): set<int> {
    set q, d | q in S && d in Targets(t, q, a) :: d
  }

  /** The live state set after reading the symbols of w from S. */
  ghost function Run(t: Table, S: set<int>, w: seq<int>): set<int>
    decreases |w|
  {
    if w == [] then S else Run(t, Move(t, S, w[0]), w[1..])
  }

  /** X is closed under every edge on every symbol. */
  ghost predicate Closed(t: Table, X: set<int>) {
    forall q, d :: q in X && d in Successors(t, q) ==> d in X
  }

  /** Every state one edge away from some state of S. */
  ghost function Post(t: Table, S: set<int>): set<int> {
    set q, d | q in S && d in Successors(t, q) :: d
  }

  /** Every destination that occurs anywhere in the table. */
  ghost function AllTargets(t: Table): set<int> {
    Post(t, t.Keys)
  }

  /**
    The states reachable from S: the fixpoint of adding successors,
    reached because only the finitely many recorded destinations can be added.
  */
  ghost function Reach(t: Table, S: set<int>): set<int>
    decreases AllTargets(t) - S
  {
    var S' := S + Post(t, S);
    if S' <= S then S
    else
      PostWithinTargets(t, S);
      Reach(t, S')
  }

  lemma PostWithinTargets(t: Table, S: set<int>)
    ensures Post(t, S) <= AllTargets(t)
  {
    forall d | d in Post(t, S) ensures d in AllTargets(t) {
      var q :| q in S && d in Successors(t, q);
      assert q in t;
    }
  }

  // ---------------------------------------------------------------------
  // Facts about Move and Run

  lemma MoveOfEmpty(t: Table, a: int)
    ensures Move(t, {}, a) == {}
  {
  }

  lemma MoveSingleton(t: Table, q: int, a: int)
    ensures Move(t, {q}, a) == Targets(t, q, a)
  {
    forall d | d in Targets(t, q, a) ensures d in Move(t, {q}, a) {
      assert q in {q};
    }
  }

  /** The image of a two-element set is the union of the two rows' entries. */
  lemma MovePair(t: Table, p: int, q: int, a: int)
    ensures Move(t, {p, q}, a) == Targets(t, p, a) + Targets(t, q, a)
  {
    MoveUnion(t, {p}, {q}, a);
    MoveSingleton(t, p, a);
    MoveSingleton(t, q, a);
    assert {p, q} == {p} + {q};
  }

  lemma MoveUnion(t: Table, A: set<int>, B: set<int>, a: int)
    ensures Move(t, A + B, a) == Move(t, A, a) + Move(t, B, a)
  {
    forall d | d in Move(t, A + B, a) ensures d in Move(t, A, a) + Move(t, B, a) {
      var q :| q in A + B && d in Targets(t, q, a);
      if q in A { assert d in Move(t, A, a); } else { assert d in Move(t, B, a); }
    }
    forall d | d in Move(t, A, a) + Move(t, B, a) ensures d in Move(t, A + B, a) {
      if d in Move(t, A, a) {
        var q :| q in A && d in Targets(t, q, a);
        assert q in A + B;
      } else {
        var q :| q in B && d in Targets(t, q, a);
        assert q in A + B;
      }
    }
  }

  /** A symbol no row mentions moves every state set to the empty set. */
  lemma MoveUnknownSymbol(t: Table, S: set<int>, a: int)
    requires forall q :: q in t ==> a !in t[q]
    ensures Move(t, S, a) == {}
  {
  }

  /** Once the live set is empty it stays empty: the source's early `False` is sound. */
  lemma {:induction false} RunOfEmpty(t: Table, w: seq<int>)
    ensures Run(t, {}, w) == {}
    decreases |w|
  {
    if w != [] {
      MoveOfEmpty(t, w[0]);
      RunOfEmpty(t, w[1..]);
    }
  }

  /** Reading one more symbol is one more Move. */
  lemma {:induction false} RunSnoc(t: Table, S: set<int>, w: seq<int>, a: int)
    ensures Run(t, S, w + [a]) == Move(t, Run(t, S, w), a)
    decreases |w|
  {
    if w == [] {
      assert [a][1..] == [];
    } else {
      assert (w + [a])[0] == w[0];
      assert (w + [a])[1..] == w[1..] + [a];
      RunSnoc(t, Move(t, S, w[0]), w[1..], a);
    }
  }

  /** Reading u then v is reading u + v. */
  lemma {:induction false} RunAppend(t: Table, S: set<int>, u: seq<int>, v: seq<int>)
    ensures Run(t, S, u + v) == Run(t, Run(t, S, u), v)
    decreases |u|
  {
    if u == [] {
      assert u + v == v;
    } else {
      assert (u + v)[0] == u[0];
      assert (u + v)[1..] == u[1..] + v;
      RunAppend(t, Move(t, S, u[0]), u[1..], v);
    }
  }

  /** An empty live set after a prefix means an empty live set at the end. */
  lemma RunEmptyPrefix(t: Table, S: set<int>, w: seq<int>, k: nat)
    requires k <= |w| && Run(t, S, w[..k]) == {}
    ensures Run(t, S, w) == {}
  {
    assert w == w[..k] + w[k..];
    RunAppend(t, S, w[..k], w[k..]);
    RunOfEmpty(t, w[k..]);
  }

  // ---------------------------------------------------------------------
  // Reach: the least closed superset of the start set

  lemma {:induction false} ReachContains(t: Table, S: set<int>)
    ensures S <= Reach(t, S)
    decreases AllTargets(t) - S
  {
    var S' := S + Post(t, S);
    if !(S' <= S) {
      PostWithinTargets(t, S);
      ReachContains(t, S');
    }
  }

  lemma {:induction false} ReachClosed(t: Table, S: set<int>)
    ensures Closed(t, Reach(t, S))
    decreases AllTargets(t) - S
  {
    var S' := S + Post(t, S);
    if S' <= S {
      forall q, d | q in S && d in Successors(t, q) ensures d in S {
        assert d in Post(t, S);
      }
    } else {
      PostWithinTargets(t, S);
      ReachClosed(t, S');
    }
  }

  lemma {:induction false} ReachLeast(t: Table, S: set<int>, X: set<int>)
    requires S <= X && Closed(t, X)
    ensures Reach(t, S) <= X
    decreases AllTargets(t) - S
  {
    var S' := S + Post(t, S);
    if !(S' <= S) {
      assert Post(t, S) <= X by {
        forall d | d in Post(t, S) ensures d in X {
          var q :| q in S && d in Successors(t, q);
        }
      }
      PostWithinTargets(t, S);
      ReachLeast(t, S', X);
    }
  }

  /**
    The three facts together: Reach(t, S) contains S, is closed, and lies
    inside every closed superset of S, so it is the least such set.
  */
  lemma ReachIsLeastClosed(t: Table, S: set<int>, X: set<int>)
    ensures S <= Reach(t, S) && Closed(t, Reach(t, S))
    ensures S <= X && Closed(t, X) ==> Reach(t, S) <= X
  {
    ReachContains(t, S);
    ReachClosed(t, S);
    if S <= X && Closed(t, X) {
      ReachLeast(t, S, X);
    }
  }

  /** The destinations of a Move made from within a closed set stay inside it. */
  lemma MoveWithinClosed(t: Table, X: set<int>, C: set<int>, a: int)
    requires Closed(t, X) && C <= X
    ensures Move(t, C, a) <= X
  {
    forall d | d in Move(t, C, a) ensures d in X {
      var q :| q in C && d in Targets(t, q, a);
      assert a in Symbols(t, q);
      assert d in Successors(t, q);
    }
  }

  // ---------------------------------------------------------------------
  // Recording one more edge

  /**
    The table after recording the edge q --a--> d: the destination set of
    (q, a) gains d, a row and an entry are created when missing, and every
    other entry stays as it was.
  */
  function WithEdge(t: Table, q: int, a: int, d: int): (t': Table)
    ensures t'.Keys == t.Keys + {q}
    ensures Symbols(t', q) == Symbols(t, q) + {a}
    ensures forall p :: p != q ==> Symbols(t', p) == Symbols(t, p)
    ensures Targets(t', q, a) == Targets(t, q, a) + {d}
    ensures forall p, b :: (p, b) != (q, a) ==> Targets(t', p, b) == Targets(t, p, b)
  {
    var row := if q in t then t[q] else map[];
    t[q := row[a := Targets(t, q, a) + {d}]]
  }

  /** The new edge adds d to the a-image of exactly the sets that contain q. */
  lemma MoveWithEdge(t: Table, q: int, a: int, d: int, S: set<int>, b: int)
    ensures Move(WithEdge(t, q, a, d), S, b) == Move(t, S, b) + (if q in S && b == a then {d} else {})
  {
    var t' := WithEdge(t, q, a, d);
    forall x | x in Move(t', S, b) ensures x in Move(t, S, b) + (if q in S && b == a then {d} else {}) {
      var p :| p in S && x in Targets(t', p, b);
      if (p, b) != (q, a) || x != d {
        assert x in Targets(t, p, b);
      }
    }
    forall x | x in Move(t, S, b) ensures x in Move(t', S, b) {
      var p :| p in S && x in Targets(t, p, b);
      assert x in Targets(t', p, b);
    }
    if q in S && b == a {
      assert d in Targets(t', q, a);
    }
  }

  /** Recording an edge that is already there leaves the table as it was. */
  lemma WithEdgeIdempotent(t: Table, q: int, a: int, d: int)
    requires d in Targets(t, q, a)
    ensures WithEdge(t, q, a, d) == t
  {
    assert t[q][a] + {d} == t[q][a];
    assert t[q][a := t[q][a]] == t[q];
  }
}
