/**
  What `accepts` computes on a string: each character is converted to an
  integer symbol, the live state set is advanced symbol by symbol, and the
  answer is whether the final set meets the accept states. A character that
  is not a decimal digit is an error, but only if the scan reaches it: the
  scan stops with `false` as soon as the live set becomes empty.
*/
module Simulation {
  import opened Wrappers
  import opened Transitions

  /** `ValueError` raised by `int(sym)` on a character that is not a digit. */
  datatype Error = NotADigit(c: char)

  predicate IsDigit(c: char) {
    '0' <= c <= '9'
  }

  /** `int(c)` for a single decimal digit. */
  function DigitValue(c: char): (d: int)
    requires IsDigit(c)
    ensures 0 <= d <= 9
  {
    (c as int) - ('0' as int)
  }

  predicate AllDigits(w: string) {
    forall i :: 0 <= i < |w| ==> IsDigit(w[i])
  }

  /** The symbol sequence of a string of digits. */
  function SymbolsOf(w: string): (syms: seq<int>)
    requires AllDigits(w)
    ensures |syms| == |w|
    ensures forall i :: 0 <= i < |w| ==> syms[i] == DigitValue(w[i])
  {
    if w == [] then [] else [DigitValue(w[0])] + SymbolsOf(w[1..])
  }

  /** The position of the first character that is not a digit, or |w|. */
  function FirstNonDigit(w: string): (k: nat)
    ensures k <= |w| && AllDigits(w[..k])
    ensures k < |w| ==> !IsDigit(w[k])
  {
    if w == [] then 0
    else if !IsDigit(w[0]) then 0
    else
      var k := 1 + FirstNonDigit(w[1..]);
      assert w[..k] == [w[0]] + w[1..][..k - 1];
      k
  }

  /** The symbols of the prefix w[..k] extend by the symbol of w[k]. */
  lemma SymbolsSnoc(w: string, k: nat)
    requires k < |w| && AllDigits(w[..k + 1])
    ensures AllDigits(w[..k]) && SymbolsOf(w[..k + 1]) == SymbolsOf(w[..k]) + [DigitValue(w[k])]
  {
    assert w[..k] == w[..k + 1][..k];
  }

  /**
    The answer `accepts(w)` gives on an automaton with table t, start set S
    and accept set F: the acceptance test on the whole word when every
    character is a digit; otherwise `false` when the live set is already
    empty after the digits before the first bad character (and there is at
    least one such digit), and the conversion error when it is not.
  */
  ghost function AcceptsSpec(t: Table, S: set<int>, F: set<int>, w: string): Result<bool, Error> {
    var k := FirstNonDigit(w);
    if k == |w| then
      assert w[..k] == w;
      Ok(Run(t, S, SymbolsOf(w)) * F != {})
    else if k > 0 && Run(t, S, SymbolsOf(w[..k])) == {} then Ok(false)
    else Err(NotADigit(w[k]))
  }

  /** The empty string is accepted exactly when a start state is an accept state. */
  lemma AcceptsEmpty(t: Table, S: set<int>, F: set<int>)
    ensures AcceptsSpec(t, S, F, "") == Ok(S * F != {})
  {
    assert SymbolsOf("") == [];
  }

  /**
    A string of digits is never an error, and its answer is the acceptance
    test on the whole word: the early exit does not change the result.
  */
  lemma AcceptsDigits(t: Table, S: set<int>, F: set<int>, w: string)
    requires AllDigits(w)
    ensures AcceptsSpec(t, S, F, w) == Ok(Run(t, S, SymbolsOf(w)) * F != {})
  {
    var k := FirstNonDigit(w);
    assert k == |w|;
  }

  /** Two automata whose runs agree on emptiness and acceptance give the same answers. */
  lemma AcceptsSpecCongruent(t: Table, S: set<int>, F: set<int>,
                             t': Table, S': set<int>, F': set<int>, w: string)
    requires forall k :: 0 < k <= |w| && AllDigits(w[..k]) ==>
               (Run(t, S, SymbolsOf(w[..k])) == {} <==> Run(t', S', SymbolsOf(w[..k])) == {})
    requires AllDigits(w) ==>
               (Run(t, S, SymbolsOf(w)) * F != {} <==> Run(t', S', SymbolsOf(w)) * F' != {})
    ensures AcceptsSpec(t, S, F, w) == AcceptsSpec(t', S', F', w)
  {
    var k := FirstNonDigit(w);
    if k == |w| {
      assert w[..k] == w;
    }
  }

  /** The first character that is not a digit is the one the scan stops at. */
  lemma FirstNonDigitAt(w: string, i: nat)
    requires i < |w| && AllDigits(w[..i]) && !IsDigit(w[i])
    ensures FirstNonDigit(w) == i
  {
    var k := FirstNonDigit(w);
    assert forall j :: 0 <= j < i ==> w[..i][j] == w[j];
    assert forall j :: 0 <= j < k ==> w[..k][j] == w[j];
  }

  /** The symbols of a longer digit prefix extend those of a shorter one. */
  lemma SymbolsPrefix(w: string, m: nat, k: nat)
    requires m <= k <= |w| && AllDigits(w[..k])
    ensures AllDigits(w[..m]) && SymbolsOf(w[..k])[..m] == SymbolsOf(w[..m])
  {
    assert forall i :: 0 <= i < m ==> w[..m][i] == w[..k][i];
  }

  /**
    The early `return False`: once the live set is empty after a non-empty
    digit prefix, the answer is `false` whatever follows, even characters
    that are not digits.
  */
  lemma AcceptsAfterEmpty(t: Table, S: set<int>, F: set<int>, w: string, m: nat)
    requires 0 < m <= |w| && AllDigits(w[..m]) && Run(t, S, SymbolsOf(w[..m])) == {}
    ensures AcceptsSpec(t, S, F, w) == Ok(false)
  {
    var k := FirstNonDigit(w);
    assert forall j :: 0 <= j < m ==> w[..m][j] == w[j];
    SymbolsPrefix(w, m, k);
    RunEmptyPrefix(t, S, SymbolsOf(w[..k]), m);
    if k == |w| {
      assert w[..k] == w;
    }
  }

  /** A bad character reached while the live set is non-empty (or at once) is the conversion error. */
  lemma AcceptsAtBadChar(t: Table, S: set<int>, F: set<int>, w: string, i: nat)
    requires i < |w| && AllDigits(w[..i]) && !IsDigit(w[i])
    requires i > 0 ==> Run(t, S, SymbolsOf(w[..i])) != {}
    ensures AcceptsSpec(t, S, F, w) == Err(NotADigit(w[i]))
  {
    FirstNonDigitAt(w, i);
  }
}
