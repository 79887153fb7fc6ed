/** Seed counting over board cells: sums of integer sequences and the
    facts about them that seed conservation rests on. */
module Seeds {

  /** Total number of seeds held by the cells of `s`. */
  function Sum(s: seq<int>): int
  {
    if |s| == 0 then 0 else Sum(s[..|s| - 1]) + s[|s| - 1]
  }

  /** Every cell holds a non-negative number of seeds. */
  predicate NonNegative(s: seq<int>)
  {
    forall i :: 0 <= i < |s| ==> s[i] >= 0
  }

  /** Summing a concatenation sums the parts. */
  lemma {:induction false} SumConcat(a: seq<int>, b: seq<int>)
    ensures Sum(a + b) == Sum(a) + Sum(b)
    decreases |b|
  {
    if |b| == 0 {
      assert a + b == a;
    } else {
      assert (a + b)[..|a + b| - 1] == a + b[..|b| - 1];
      SumConcat(a, b[..|b| - 1]);
    }
  }

  /** Overwriting one cell changes the sum by exactly the difference. */
  lemma {:induction false} SumUpdate(s: seq<int>, i: int, v: int)
    requires 0 <= i < |s|
    ensures Sum(s[i := v]) == Sum(s) - s[i] + v
    decreases |s|
  {
    if i == |s| - 1 {
      assert s[i := v][..|s| - 1] == s[..|s| - 1];
    } else {
      assert s[i := v][..|s| - 1] == s[..|s| - 1][i := v];
      SumUpdate(s[..|s| - 1], i, v);
    }
  }

  /** A sequence of non-negative cells sums to at least any one cell. */
  lemma {:induction false} SumBoundsCell(s: seq<int>, i: int)
    requires NonNegative(s)
    requires 0 <= i < |s|
    ensures 0 <= s[i] <= Sum(s)
    decreases |s|
  {
    SumNonNegative(s[..|s| - 1]);
    if i < |s| - 1 {
      SumBoundsCell(s[..|s| - 1], i);
    }
  }

  /** Non-negative cells have a non-negative sum. */
  lemma {:induction false} SumNonNegative(s: seq<int>)
    requires NonNegative(s)
    ensures Sum(s) >= 0
    decreases |s|
  {
    if |s| > 0 {
      SumNonNegative(s[..|s| - 1]);
    }
  }

  /** All cells zero exactly when a non-negative sequence sums to zero. */
  lemma {:induction false} SumZeroIffAllZero(s: seq<int>)
    requires NonNegative(s)
    ensures Sum(s) == 0 <==> forall i :: 0 <= i < |s| ==> s[i] == 0
    decreases |s|
  {
    if |s| > 0 {
      SumNonNegative(s[..|s| - 1]);
      SumZeroIffAllZero(s[..|s| - 1]);
      assert forall i :: 0 <= i < |s| - 1 ==> s[..|s| - 1][i] == s[i];
    }
  }
}
