/** One player's board: six pits (indices 0..5) followed by the store
    (index 6), the layout `CreatePlayer` allocates. */
module Board {
  import opened Seeds

  /** Number of pits on a row; also the index of the store. */
  const Pits := 6
  const Store := 6
  const Size := 7

  /** A board of the shape the game allocates and saves. */
  predicate Shaped(b: seq<int>)
  {
    |b| == Size
  }

  /** Seeds still in play on this row, the store excluded. */
  function PitTotal(b: seq<int>): int
    requires Shaped(b)
  {
    Sum(b[..Pits])
  }

  /** The 1-based numbers of the pits at `from` and beyond that hold seeds,
      in the order the program's loop appends them. */
  function LegalFrom(b: seq<int>, from: nat): (r: seq<int>)
    requires Shaped(b) && from <= Pits
    ensures forall x :: x in r <==> from + 1 <= x <= Pits && b[x - 1] > 0
    ensures forall i, j :: 0 <= i < j < |r| ==> r[i] < r[j]
    ensures |r| <= Pits - from
    decreases Pits - from
  {
    if from == Pits then []
    else
      var rest := LegalFrom(b, from + 1);
      assert forall j :: 0 <= j < |rest| ==> rest[j] in rest;
      if b[from] > 0 then [from + 1] + rest else rest
  }

  /** The pits a player may choose, numbered from 1: exactly the non-empty
      pits, ascending, never the store. */
  function LegalMoves(b: seq<int>): (r: seq<int>)
    requires Shaped(b)
    ensures forall x :: x in r <==> 1 <= x <= Pits && b[x - 1] > 0
    ensures forall i, j :: 0 <= i < j < |r| ==> r[i] < r[j]
    ensures Store + 1 !in r
  {
    LegalFrom(b, 0)
  }

  /** The board after the first `upTo` pits were emptied into the store,
      one pit per step as the program's sweep loop does it. */
  function SweepUpTo(b: seq<int>, upTo: nat): (r: seq<int>)
    requires Shaped(b) && upTo <= Pits
    ensures Shaped(r)
    ensures forall i :: 0 <= i < upTo ==> r[i] == 0
    ensures forall i :: upTo <= i < Pits ==> r[i] == b[i]
    ensures r[Store] == b[Store] + Sum(b[..upTo])
    decreases upTo
  {
    if upTo == 0 then b
    else
      var c := SweepUpTo(b, upTo - 1);
      assert b[..upTo][..upTo - 1] == b[..upTo - 1];
      c[Store := c[Store] + c[upTo - 1]][upTo - 1 := 0]
  }

  /** Moves every seed left on the row into the row's own store. */
  function Sweep(b: seq<int>): (r: seq<int>)
    requires Shaped(b)
    ensures Shaped(r)
    ensures forall i :: 0 <= i < Pits ==> r[i] == 0
    ensures r[Store] == b[Store] + PitTotal(b)
    ensures Sum(r) == Sum(b)
  {
    var r := SweepUpTo(b, Pits);
    SumPitsAndStore(b);
    SumPitsAndStore(r);
    assert r[..Pits] == seq(Pits, i => 0);
    ConstantSum(Pits, 0);
    r
  }

  /** A board's seeds are its pits' seeds plus its store's. */
  lemma SumPitsAndStore(b: seq<int>)
    requires Shaped(b)
    ensures Sum(b) == PitTotal(b) + b[Store]
  {
    assert b == b[..Pits] + [b[Store]];
    SumConcat(b[..Pits], [b[Store]]);
    assert [b[Store]][..0] == [];
  }

  /** n cells of v seeds each hold n * v seeds. */
  lemma {:induction false} ConstantSum(n: nat, v: int)
    ensures Sum(seq(n, i => v)) == n * v
  {
    if n > 0 {
      assert seq(n, i => v)[..n - 1] == seq(n - 1, i => v);
      ConstantSum(n - 1, v);
    }
  }

  /** A non-negative row has no legal move exactly when its pits hold no seeds. */
  lemma NoMovesIffPitsEmpty(b: seq<int>)
    requires Shaped(b) && NonNegative(b)
    ensures |LegalMoves(b)| == 0 <==> PitTotal(b) == 0
  {
    var pits := b[..Pits];
    assert NonNegative(pits);
    SumZeroIffAllZero(pits);
    var legal := LegalMoves(b);
    if |legal| != 0 {
      assert pits[legal[0] - 1] > 0 by {
        assert legal[0] in legal;
      }
    } else {
      forall i | 0 <= i < Pits
        ensures pits[i] == 0
      {
        assert i + 1 !in legal;
      }
    }
  }
}
