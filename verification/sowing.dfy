/** Sowing: distributing the seeds of one pit around the board, with the
    extra-turn and capture rules.

    The walk of `Move` visits the mover's pits, the mover's store, the
    opponent's pits, skips the opponent's store and starts over. Laid out
    flat, that path is a ring of 13 slots: the mover's cells 0..6 are slots
    0..6 and the opponent's pits 0..5 are slots 7..12. The k-th seed taken
    from pit p lands on slot (p + k) % 13. `Distribute` states a move in
    those terms; `Move` is the slot-by-slot walk, proved to agree with it. */
module Sowing {
  import opened Seeds
  import opened Board

  const RingSize := 13

  /** The outcome of sowing: both boards afterwards, and whether the last
      seed fell into the mover's store (the mover then plays again). */
  datatype Sown = Sown(mover: seq<int>, opponent: seq<int>, extraTurn: bool)

  /** The ring a move walks: the mover's seven cells, then the opponent's pits. */
  function Ring(mover: seq<int>, opponent: seq<int>): (r: seq<int>)
    requires Shaped(mover) && Shaped(opponent)
    ensures |r| == RingSize
  {
    mover + opponent[..Pits]
  }

  /** The boards a ring stands for, given the opponent's store beside it. */
  function Split(ring: seq<int>, opponentStore: int, extraTurn: bool): (r: Sown)
    requires |ring| == RingSize
    ensures Shaped(r.mover) && Shaped(r.opponent)
    ensures r.opponent[Store] == opponentStore
    ensures Ring(r.mover, r.opponent) == ring
  {
    Sown(ring[..Size], ring[Size..] + [opponentStore], extraTurn)
  }

  /** The opponent pit facing the mover's pit t. */
  function Across(t: int): int
  {
    Pits - 1 - t
  }

  /** The ring slot on which the k-th seed taken from pit `pit` lands. */
  function LandingSlot(pit: int, k: int): (s: int)
    ensures 0 <= s < RingSize
  {
    (pit + k) % RingSize
  }

  /** The ring after each of the first k seeds taken from `pit` was dropped
      on its landing slot. */
  function Spread(ring: seq<int>, pit: int, k: nat): (r: seq<int>)
    requires |ring| == RingSize
    ensures |r| == RingSize
    ensures Sum(r) == Sum(ring) + k
  {
    if k == 0 then ring
    else
      var prev := Spread(ring, pit, k - 1);
      var s := LandingSlot(pit, k);
      SumUpdate(prev, s, prev[s] + 1);
      prev[s := prev[s] + 1]
  }

  /** The effect of playing pit `pit` (0-based) of the mover's board.

      The pit is emptied and its n seeds are spread over the ring. If the
      last one reaches an empty pit t of the mover's own row while the
      facing opponent pit holds seeds, it is not dropped there: it and the
      facing pit's seeds go to the mover's store instead. A move whose last
      seed reaches the mover's store earns an extra turn. A pit holding no
      seeds (possible only in a state the game never offers as legal) is
      merely set to zero. */
  function Distribute(mover: seq<int>, opponent: seq<int>, pit: int): (r: Sown)
    requires Shaped(mover) && Shaped(opponent) && 0 <= pit < Pits
    ensures Shaped(r.mover) && Shaped(r.opponent)
    ensures r.opponent[Store] == opponent[Store]
  {
    var n := mover[pit];
    if n <= 0 then Sown(mover[pit := 0], opponent, false)
    else
      var ring := Ring(mover[pit := 0], opponent);
      var last := LandingSlot(pit, n);
      var before := Spread(ring, pit, n - 1);
      if Captures(before, last) then Split(Capture(before, last), opponent[Store], false)
      else Split(Spread(ring, pit, n), opponent[Store], last == Store)
  }

  /** The last seed, about to land on ring slot `last`, captures: the slot
      is an empty pit of the mover's row and the facing pit holds seeds. */
  predicate Captures(before: seq<int>, last: int)
    requires |before| == RingSize && 0 <= last < RingSize
  {
    last < Store && before[last] == 0 && before[Size + Across(last)] > 0
  }

  /** The ring after a capture on slot `last`: the last seed and the facing
      pit's seeds are in the mover's store, the facing pit is empty. */
  function Capture(before: seq<int>, last: int): (r: seq<int>)
    requires |before| == RingSize && 0 <= last < Store
    ensures |r| == RingSize
    ensures Sum(r) == Sum(before) + 1
    ensures r[Store] == before[Store] + 1 + before[Size + Across(last)]
    ensures r[Size + Across(last)] == 0
    ensures forall s :: 0 <= s < RingSize && s != Store && s != Size + Across(last) ==> r[s] == before[s]
  {
    var facing := Size + Across(last);
    var mid := before[Store := before[Store] + 1 + before[facing]];
    SumUpdate(before, Store, mid[Store]);
    SumUpdate(mid, facing, 0);
    mid[facing := 0]
  }

  /** Which ring slot the walk is about to visit: a pit or store of the
      mover's row, a pit of the opponent's row, or, at the opponent's store,
      the slot after it (the store itself is passed over). */
  function NextSlot(target: int, onMover: bool): int
  {
    if onMover then target else if target == Store then 0 else Size + target
  }

  lemma RingUpdateMover(m: seq<int>, o: seq<int>, i: int, v: int)
    requires Shaped(m) && Shaped(o) && 0 <= i < Size
    ensures Ring(m[i := v], o) == Ring(m, o)[i := v]
  {
  }

  lemma RingUpdateOpponent(m: seq<int>, o: seq<int>, i: int, v: int)
    requires Shaped(m) && Shaped(o) && 0 <= i < Pits
    ensures Ring(m, o[i := v]) == Ring(m, o)[Size + i := v]
  {
    assert o[i := v][..Pits] == o[..Pits][i := v];
  }

  lemma SplitRing(m: seq<int>, o: seq<int>, extraTurn: bool)
    requires Shaped(m) && Shaped(o)
    ensures Split(Ring(m, o), o[Store], extraTurn) == Sown(m, o, extraTurn)
  {
    assert Ring(m, o)[..Size] == m;
    assert Ring(m, o)[Size..] + [o[Store]] == o;
  }

  /** The program's sowing loop: walk slot by slot, deposit one seed per
      visited cell, skip the opponent's store, capture on the last seed.
      The seeds in hand, the target index and the row being walked are the
      loop's only state; the result is exactly `Distribute`. */
  method Move(mover: seq<int>, opponent: seq<int>, pit: int) returns (m: seq<int>, o: seq<int>, extraTurn: bool)
    requires Shaped(mover) && Shaped(opponent) && 0 <= pit < Pits
    ensures Sown(m, o, extraTurn) == Distribute(mover, opponent, pit)
    ensures o[Store] == opponent[Store]
  {
    var hand := mover[pit];
    m := mover[pit := 0];
    o := opponent;
    var target := pit + 1;
    var onMover := true;
    extraTurn := false;
    if hand <= 0 {
      DistributeIdle(mover, opponent, pit);
    }
    assert Sowing(mover, opponent, pit, m, o, hand, target, onMover);
    while hand > 0
      invariant Sowing(mover, opponent, pit, m, o, hand, target, onMover)
      decreases Remaining(hand, target, onMover)
    {
      var lastInStore;
      m, o, hand, target, onMover, lastInStore := SowSlot(mover, opponent, pit, m, o, hand, target, onMover);
      if lastInStore {
        extraTurn := true;
        return;
      }
    }
  }

  /** What is left of the walk: two steps per seed in hand, plus one for
      passing over the opponent's store. */
  function Remaining(hand: int, target: int, onMover: bool): int
  {
    2 * hand + (if !onMover && target == Store then 1 else 0)
  }

  /** One pass of the sowing loop: visit the slot `target` of the row being
      walked. `lastInStore` reports the early return taken when the last
      seed falls into the mover's store. */
  method SowSlot(ghost mover: seq<int>, ghost opponent: seq<int>, ghost pit: int,
                 m: seq<int>, o: seq<int>, hand: int, target: int, onMover: bool)
    returns (m': seq<int>, o': seq<int>, hand': int, target': int, onMover': bool, lastInStore: bool)
    requires Shaped(mover) && Shaped(opponent) && 0 <= pit < Pits
    requires Walking(mover, opponent, pit, m, o, hand, target, onMover)
    ensures lastInStore ==> Distribute(mover, opponent, pit) == Sown(m', o', true)
    ensures !lastInStore ==> Sowing(mover, opponent, pit, m', o', hand', target', onMover')
    ensures !lastInStore ==> 0 <= Remaining(hand', target', onMover') < Remaining(hand, target, onMover)
  {
    m', o', hand', target', onMover', lastInStore := m, o, hand, target, onMover, false;
    if target == Store {
      if onMover {
        StepStore(mover, opponent, pit, m, o, hand);
        m' := m[Store := m[Store] + 1];
        hand' := hand - 1;
        if hand' == 0 {
          lastInStore := true;
          return;
        }
      } else {
        StepSkip(mover, opponent, pit, m, o, hand);
      }
      onMover' := !onMover;
      target' := 0;
    } else if onMover {
      var across := Across(target);
      if m[target] == 0 && hand == 1 && o[across] > 0 {
        StepCapture(mover, opponent, pit, m, o, target);
        m' := m[Store := m[Store] + hand];
        hand' := hand - 1;
        m' := m'[Store := m'[Store] + o[across]];
        o' := o[across := 0];
      } else {
        StepMoverPit(mover, opponent, pit, m, o, hand, target);
        m' := m[target := m[target] + 1];
        hand' := hand - 1;
        target' := target + 1;
      }
    } else {
      StepOpponentPit(mover, opponent, pit, m, o, hand, target);
      o' := o[target := o[target] + 1];
      hand' := hand - 1;
      target' := target + 1;
    }
  }

  /** The loop's invariant: still walking, or done with the result of
      `Distribute` and no extra turn. */
  ghost predicate Sowing(mover: seq<int>, opponent: seq<int>, pit: int,
                         m: seq<int>, o: seq<int>, hand: int, target: int, onMover: bool)
    requires Shaped(mover) && Shaped(opponent) && 0 <= pit < Pits
  {
    if hand > 0 then Walking(mover, opponent, pit, m, o, hand, target, onMover)
    else Distribute(mover, opponent, pit) == Sown(m, o, false)
  }

  /** The state of the sowing walk with `hand` seeds still to sow: the
      boards are the ring after the seeds sown so far, and the walk is
      about to visit the landing slot of the next seed. */
  ghost predicate Walking(mover: seq<int>, opponent: seq<int>, pit: int,
                          m: seq<int>, o: seq<int>, hand: int, target: int, onMover: bool)
    requires Shaped(mover) && Shaped(opponent) && 0 <= pit < Pits
  {
    && Shaped(m) && Shaped(o)
    && 0 <= target <= Store
    && o[Store] == opponent[Store]
    && 0 < hand <= mover[pit]
    && Ring(m, o) == Spread(Ring(mover[pit := 0], opponent), pit, mover[pit] - hand)
    && NextSlot(target, onMover) == LandingSlot(pit, mover[pit] - hand + 1)
  }

  /** Passing over the opponent's store sows nothing. */
  lemma StepSkip(mover: seq<int>, opponent: seq<int>, pit: int, m: seq<int>, o: seq<int>, hand: int)
    requires Shaped(mover) && Shaped(opponent) && 0 <= pit < Pits
    requires Walking(mover, opponent, pit, m, o, hand, Store, false)
    ensures Sowing(mover, opponent, pit, m, o, hand, 0, true)
  {
  }

  /** A seed dropped in the mover's store; the last one earns an extra turn. */
  lemma StepStore(mover: seq<int>, opponent: seq<int>, pit: int, m: seq<int>, o: seq<int>, hand: int)
    requires Shaped(mover) && Shaped(opponent) && 0 <= pit < Pits
    requires Walking(mover, opponent, pit, m, o, hand, Store, true)
    ensures hand > 1 ==> Sowing(mover, opponent, pit, m[Store := m[Store] + 1], o, hand - 1, 0, false)
    ensures hand == 1 ==> Distribute(mover, opponent, pit) == Sown(m[Store := m[Store] + 1], o, true)
  {
    var k := mover[pit] - hand;
    NextLanding(pit, k + 1);
    RingUpdateMover(m, o, Store, m[Store] + 1);
    SpreadStep(Ring(mover[pit := 0], opponent), pit, k);
    if hand == 1 {
      FinishPlain(mover, opponent, pit, m[Store := m[Store] + 1], o);
    }
  }

  /** The last seed reaches an empty pit of the mover's row facing seeds. */
  lemma StepCapture(mover: seq<int>, opponent: seq<int>, pit: int, m: seq<int>, o: seq<int>, target: int)
    requires Shaped(mover) && Shaped(opponent) && 0 <= pit < Pits
    requires Walking(mover, opponent, pit, m, o, 1, target, true)
    requires target < Store && m[target] == 0 && o[Across(target)] > 0
    ensures var m1 := m[Store := m[Store] + 1];
      Sowing(mover, opponent, pit, m1[Store := m1[Store] + o[Across(target)]], o[Across(target) := 0], 0, target, true)
  {
    var m1 := m[Store := m[Store] + 1];
    var m2 := m1[Store := m1[Store] + o[Across(target)]];
    var before := Ring(m, o);
    var after := Capture(before, target);
    assert m2 == m[Store := m[Store] + 1 + o[Across(target)]];
    RingUpdateMover(m, o, Store, m2[Store]);
    RingUpdateOpponent(m2, o, Across(target), 0);
    assert Ring(m2, o[Across(target) := 0]) == after;
    FinishCapture(mover, opponent, pit, before, m2, o[Across(target) := 0]);
  }

  /** A seed dropped in a pit of the mover's row without capturing. */
  lemma StepMoverPit(mover: seq<int>, opponent: seq<int>, pit: int, m: seq<int>, o: seq<int>, hand: int, target: int)
    requires Shaped(mover) && Shaped(opponent) && 0 <= pit < Pits
    requires Walking(mover, opponent, pit, m, o, hand, target, true)
    requires target < Store && !(m[target] == 0 && hand == 1 && o[Across(target)] > 0)
    ensures Sowing(mover, opponent, pit, m[target := m[target] + 1], o, hand - 1, target + 1, true)
  {
    var k := mover[pit] - hand;
    NextLanding(pit, k + 1);
    RingUpdateMover(m, o, target, m[target] + 1);
    SpreadStep(Ring(mover[pit := 0], opponent), pit, k);
    if hand == 1 {
      FinishPlain(mover, opponent, pit, m[target := m[target] + 1], o);
    }
  }

  /** A seed dropped in a pit of the opponent's row; never a capture. */
  lemma StepOpponentPit(mover: seq<int>, opponent: seq<int>, pit: int, m: seq<int>, o: seq<int>, hand: int, target: int)
    requires Shaped(mover) && Shaped(opponent) && 0 <= pit < Pits
    requires Walking(mover, opponent, pit, m, o, hand, target, false)
    requires target < Store
    ensures Sowing(mover, opponent, pit, m, o[target := o[target] + 1], hand - 1, target + 1, false)
  {
    var k := mover[pit] - hand;
    NextLanding(pit, k + 1);
    RingUpdateOpponent(m, o, target, o[target] + 1);
    SpreadStep(Ring(mover[pit := 0], opponent), pit, k);
    if hand == 1 {
      FinishPlain(mover, opponent, pit, m, o[target := o[target] + 1]);
    }
  }

  /** One more seed: it lands on the next landing slot. */
  lemma SpreadStep(ring: seq<int>, pit: int, k: nat)
    requires |ring| == RingSize
    ensures var prev := Spread(ring, pit, k); var s := LandingSlot(pit, k + 1);
      Spread(ring, pit, k + 1) == prev[s := prev[s] + 1]
  {
  }

  /** Playing a pit that holds no seeds only sets it to zero. */
  lemma DistributeIdle(mover: seq<int>, opponent: seq<int>, pit: int)
    requires Shaped(mover) && Shaped(opponent) && 0 <= pit < Pits && mover[pit] <= 0
    ensures Distribute(mover, opponent, pit) == Sown(mover[pit := 0], opponent, false)
  {
  }

  /** Consecutive seeds land on consecutive slots, wrapping after slot 12. */
  lemma NextLanding(pit: int, k: int)
    ensures LandingSlot(pit, k + 1) == if LandingSlot(pit, k) == RingSize - 1 then 0 else LandingSlot(pit, k) + 1
  {
  }

  /** The walk ended with a plain deposit of the last seed. */
  lemma FinishPlain(mover: seq<int>, opponent: seq<int>, pit: int, m: seq<int>, o: seq<int>)
    requires Shaped(mover) && Shaped(opponent) && 0 <= pit < Pits && mover[pit] > 0
    requires Shaped(m) && Shaped(o) && o[Store] == opponent[Store]
    requires Ring(m, o) == Spread(Ring(mover[pit := 0], opponent), pit, mover[pit])
    requires !Captures(Spread(Ring(mover[pit := 0], opponent), pit, mover[pit] - 1), LandingSlot(pit, mover[pit]))
    ensures Distribute(mover, opponent, pit) == Sown(m, o, LandingSlot(pit, mover[pit]) == Store)
  {
    SplitRing(m, o, LandingSlot(pit, mover[pit]) == Store);
  }

  /** The walk ended with a capture. */
  lemma FinishCapture(mover: seq<int>, opponent: seq<int>, pit: int, before: seq<int>, m: seq<int>, o: seq<int>)
    requires Shaped(mover) && Shaped(opponent) && 0 <= pit < Pits && mover[pit] > 0
    requires Shaped(m) && Shaped(o) && o[Store] == opponent[Store]
    requires before == Spread(Ring(mover[pit := 0], opponent), pit, mover[pit] - 1)
    requires Captures(before, LandingSlot(pit, mover[pit]))
    requires Ring(m, o) == Capture(before, LandingSlot(pit, mover[pit]))
    ensures Distribute(mover, opponent, pit) == Sown(m, o, false)
  {
    SplitRing(m, o, false);
  }

  /** Sowing neither creates nor destroys seeds. */
  lemma DistributeConserves(mover: seq<int>, opponent: seq<int>, pit: int)
    requires Shaped(mover) && Shaped(opponent) && 0 <= pit < Pits
    requires mover[pit] >= 0
    ensures var r := Distribute(mover, opponent, pit);
      Sum(r.mover) + Sum(r.opponent) == Sum(mover) + Sum(opponent)
  {
    var r := Distribute(mover, opponent, pit);
    var n := mover[pit];
    SumUpdate(mover, pit, 0);
    if n > 0 {
      var ring := Ring(mover[pit := 0], opponent);
      RingSum(mover[pit := 0], opponent);
      RingSum(r.mover, r.opponent);
      var before := Spread(ring, pit, n - 1);
      assert Sum(ring) == Sum(mover) - n + Sum(opponent) - opponent[Store];
      if Captures(before, LandingSlot(pit, n)) {
        assert Ring(r.mover, r.opponent) == Capture(before, LandingSlot(pit, n));
        assert Sum(Ring(r.mover, r.opponent)) == Sum(before) + 1 == Sum(ring) + n;
      } else {
        assert Ring(r.mover, r.opponent) == Spread(ring, pit, n);
        assert Sum(Ring(r.mover, r.opponent)) == Sum(ring) + n;
      }

    }
  }

  /** A ring holds the seeds of both boards except the opponent's store. */
  lemma RingSum(m: seq<int>, o: seq<int>)
    requires Shaped(m) && Shaped(o)
    ensures Sum(Ring(m, o)) == Sum(m) + Sum(o) - o[Store]
  {
    SumConcat(m, o[..Pits]);
    SumPitsAndStore(o);
  }

  /** How many slots lie strictly between the chosen pit and ring slot s,
      walking forward: slot s receives the (Offset + 1)-th seed. */
  function Offset(pit: int, s: int): int
  {
    if s > pit then s - pit - 1 else s - pit + RingSize - 1
  }

  /** Whether ring slot s is among the first k landing slots after `pit`
      (for k up to one full lap). */
  predicate InArc(pit: int, k: int, s: int)
  {
    Offset(pit, s) < k
  }

  /** Within one lap the k-th seed lands on the slot k - 1 slots past the
      pit's neighbour. */
  lemma LandingOneLap(pit: int, k: int, s: int)
    requires 0 <= pit < Pits && 1 <= k <= RingSize && 0 <= s < RingSize
    ensures s == LandingSlot(pit, k) <==> Offset(pit, s) == k - 1
  {
    if pit + k < RingSize {
      assert LandingSlot(pit, k) == pit + k;
    } else {
      assert LandingSlot(pit, k) == pit + k - RingSize;
    }
  }

  /** Within one lap every slot receives at most one seed: exactly the k
      slots following the chosen pit. */
  lemma {:induction false} SpreadOneLap(ring: seq<int>, pit: int, k: nat, s: int)
    requires |ring| == RingSize && 0 <= pit < Pits && k <= RingSize && 0 <= s < RingSize
    ensures Spread(ring, pit, k)[s] == ring[s] + (if InArc(pit, k, s) then 1 else 0)
  {
    if k > 0 {
      SpreadOneLap(ring, pit, k - 1, s);
      LandingOneLap(pit, k, s);
    }
  }

  /** Sowing only adds seeds to the ring. */
  lemma {:induction false} SpreadGrows(ring: seq<int>, pit: int, k: nat)
    requires |ring| == RingSize
    ensures forall s :: 0 <= s < RingSize ==> Spread(ring, pit, k)[s] >= ring[s]
  {
    if k > 0 {
      SpreadGrows(ring, pit, k - 1);
    }
  }

  /** A move keeps every cell of both boards non-negative. */
  lemma DistributeKeepsNonNegative(mover: seq<int>, opponent: seq<int>, pit: int)
    requires Shaped(mover) && Shaped(opponent) && 0 <= pit < Pits
    requires NonNegative(mover) && NonNegative(opponent)
    ensures NonNegative(Distribute(mover, opponent, pit).mover)
    ensures NonNegative(Distribute(mover, opponent, pit).opponent)
  {
    var n := mover[pit];
    if n > 0 {
      var ring := Ring(mover[pit := 0], opponent);
      assert forall s :: 0 <= s < RingSize ==> ring[s] >= 0 by {
        RingCells(Sown(mover[pit := 0], opponent, false), ring);
      }
      var r := Distribute(mover, opponent, pit);
      var rr := Ring(r.mover, r.opponent);
      assert forall s :: 0 <= s < RingSize ==> rr[s] >= 0 by {
        SpreadGrows(ring, pit, n - 1);
        SpreadGrows(ring, pit, n);
      }
      RingCells(r, rr);
    }
  }

  /** The mover plays again exactly when the seed count brings the last seed
      to the store: n seeds from pit p with n congruent to 6 - p modulo 13. */
  lemma ExtraTurnIff(mover: seq<int>, opponent: seq<int>, pit: int)
    requires Shaped(mover) && Shaped(opponent) && 0 <= pit < Pits
    ensures Distribute(mover, opponent, pit).extraTurn
        <==> mover[pit] > 0 && mover[pit] % RingSize == Store - pit
  {
    var n := mover[pit];
    if n > 0 {
      assert LandingSlot(pit, n) == Store <==> n % RingSize == Store - pit;
    }
  }

  /** A move of fewer than 13 seeds leaves the chosen pit empty: no seed
      comes back to it. */
  lemma ChosenPitEmptied(mover: seq<int>, opponent: seq<int>, pit: int)
    requires Shaped(mover) && Shaped(opponent) && 0 <= pit < Pits
    requires mover[pit] < RingSize
    ensures Distribute(mover, opponent, pit).mover[pit] == 0
  {
    var n := mover[pit];
    if n > 0 {
      var ring := Ring(mover[pit := 0], opponent);
      SpreadOneLap(ring, pit, n - 1, pit);
      SpreadOneLap(ring, pit, n, pit);
      assert !InArc(pit, n, pit);
    }
  }

  /** A capture within the mover's row: n seeds from pit p whose last seed
      reaches the empty pit t = p + n on the same row, facing a non-empty
      opponent pit. Pit t stays empty, the facing pit is emptied into the
      mover's store together with the last seed, and the turn passes; the
      pits strictly between p and t gain one seed and nothing else changes. */
  lemma CaptureWithinRow(mover: seq<int>, opponent: seq<int>, pit: int, t: int)
    requires Shaped(mover) && Shaped(opponent) && 0 <= pit < Pits
    requires mover[pit] > 0 && t == pit + mover[pit] && t < Store
    requires mover[t] == 0 && opponent[Across(t)] > 0
    ensures var r := Distribute(mover, opponent, pit);
      && r.mover[Store] == mover[Store] + 1 + opponent[Across(t)]
      && r.opponent[Across(t)] == 0
      && r.mover[t] == 0
      && r.mover[pit] == 0
      && !r.extraTurn
    ensures var r := Distribute(mover, opponent, pit);
      && (forall i :: pit < i < t ==> r.mover[i] == mover[i] + 1)
      && (forall i :: 0 <= i < pit || t < i < Store ==> r.mover[i] == mover[i])
      && (forall j :: 0 <= j < Pits && j != Across(t) ==> r.opponent[j] == opponent[j])
  {
    var ring := Ring(mover[pit := 0], opponent);
    var after := Capture(Spread(ring, pit, mover[pit] - 1), t);
    WithinRowCaptures(mover, opponent, pit, t);
    WithinRowCells(mover, opponent, pit, t);
    var r := Distribute(mover, opponent, pit);
    RingCells(r, after);
    RingCells(Sown(mover[pit := 0], opponent, false), ring);
  }

  /** The ring after a within-row capture, cell by cell. */
  lemma WithinRowCells(mover: seq<int>, opponent: seq<int>, pit: int, t: int)
    requires Shaped(mover) && Shaped(opponent) && 0 <= pit < Pits
    requires mover[pit] > 0 && t == pit + mover[pit] && t < Store
    ensures var ring := Ring(mover[pit := 0], opponent);
      var after := Capture(Spread(ring, pit, mover[pit] - 1), t);
      forall s :: 0 <= s < RingSize && s != Store && s != Size + Across(t) ==>
        after[s] == ring[s] + (if pit < s < t then 1 else 0)
  {
    var ring := Ring(mover[pit := 0], opponent);
    var before := Spread(ring, pit, mover[pit] - 1);
    forall s | 0 <= s < RingSize && s != Store && s != Size + Across(t)
      ensures before[s] == ring[s] + (if pit < s < t then 1 else 0)
    {
      SpreadOneLap(ring, pit, mover[pit] - 1, s);
    }
  }

  /** The capture condition holds on the ring just before the last seed of
      a within-row capture, and the move's result is that capture. */
  lemma WithinRowCaptures(mover: seq<int>, opponent: seq<int>, pit: int, t: int)
    requires Shaped(mover) && Shaped(opponent) && 0 <= pit < Pits
    requires mover[pit] > 0 && t == pit + mover[pit] && t < Store
    requires mover[t] == 0 && opponent[Across(t)] > 0
    ensures var before := Spread(Ring(mover[pit := 0], opponent), pit, mover[pit] - 1);
      && Captures(before, t)
      && before[Store] == mover[Store]
      && before[Size + Across(t)] == opponent[Across(t)]
      && Distribute(mover, opponent, pit) == Split(Capture(before, t), opponent[Store], false)
  {
    var n := mover[pit];
    var ring := Ring(mover[pit := 0], opponent);
    var before := Spread(ring, pit, n - 1);
    assert LandingSlot(pit, n) == t by {
      LandingOneLap(pit, n, t);
    }
    assert before[t] == 0 by {
      SpreadOneLap(ring, pit, n - 1, t);
    }
    assert before[Size + Across(t)] == opponent[Across(t)] by {
      SpreadOneLap(ring, pit, n - 1, Size + Across(t));
    }
    assert before[Store] == mover[Store] by {
      SpreadOneLap(ring, pit, n - 1, Store);
    }
    DistributeOnCapture(mover, opponent, pit);
  }

  /** A move whose last seed captures yields the capture's boards. */
  lemma DistributeOnCapture(mover: seq<int>, opponent: seq<int>, pit: int)
    requires Shaped(mover) && Shaped(opponent) && 0 <= pit < Pits && mover[pit] > 0
    requires Captures(Spread(Ring(mover[pit := 0], opponent), pit, mover[pit] - 1), LandingSlot(pit, mover[pit]))
    ensures var before := Spread(Ring(mover[pit := 0], opponent), pit, mover[pit] - 1);
      Distribute(mover, opponent, pit) == Split(Capture(before, LandingSlot(pit, mover[pit])), opponent[Store], false)
  {
  }

  /** The cells of the boards a ring stands for. */
  lemma RingCells(r: Sown, ring: seq<int>)
    requires Shaped(r.mover) && Shaped(r.opponent) && |ring| == RingSize
    requires Ring(r.mover, r.opponent) == ring
    ensures forall i :: 0 <= i < Size ==> r.mover[i] == ring[i]
    ensures forall j :: 0 <= j < Pits ==> r.opponent[j] == ring[Size + j]
  {
  }

  /** A full lap: 13 seeds from pit p sow one seed into every slot of the
      ring, the last one returning to the emptied pit p. That always
      captures when the opponent's cells are non-negative: the facing pit
      holds its old seeds plus the one just sown. */
  lemma CaptureOnFullLap(mover: seq<int>, opponent: seq<int>, pit: int)
    requires Shaped(mover) && Shaped(opponent) && 0 <= pit < Pits
    requires mover[pit] == RingSize && opponent[Across(pit)] >= 0
    ensures var r := Distribute(mover, opponent, pit);
      && r.mover[pit] == 0
      && r.opponent[Across(pit)] == 0
      && r.mover[Store] == mover[Store] + 1 + 1 + (opponent[Across(pit)] + 1)
      && !r.extraTurn
      && (forall i :: 0 <= i < Pits && i != pit ==> r.mover[i] == mover[i] + 1)
      && (forall j :: 0 <= j < Pits && j != Across(pit) ==> r.opponent[j] == opponent[j] + 1)
  {
    var ring := Ring(mover[pit := 0], opponent);
    var before := Spread(ring, pit, RingSize - 1);
    FullLapCaptures(mover, opponent, pit);
    var after := Capture(before, pit);
    RingCells(Distribute(mover, opponent, pit), after);
    RingCells(Sown(mover[pit := 0], opponent, false), ring);
    forall s | 0 <= s < RingSize && s != pit
      ensures before[s] == ring[s] + 1
    {
      SpreadOneLap(ring, pit, RingSize - 1, s);
    }
  }

  /** The capture condition holds on the ring just before the last seed of
      a full lap, and the move's result is that capture. */
  lemma FullLapCaptures(mover: seq<int>, opponent: seq<int>, pit: int)
    requires Shaped(mover) && Shaped(opponent) && 0 <= pit < Pits
    requires mover[pit] == RingSize && opponent[Across(pit)] >= 0
    ensures var before := Spread(Ring(mover[pit := 0], opponent), pit, RingSize - 1);
      && Captures(before, pit)
      && Distribute(mover, opponent, pit) == Split(Capture(before, pit), opponent[Store], false)
  {
    var ring := Ring(mover[pit := 0], opponent);
    var before := Spread(ring, pit, RingSize - 1);
    assert LandingSlot(pit, RingSize) == pit;
    assert before[pit] == 0 by {
      SpreadOneLap(ring, pit, RingSize - 1, pit);
    }
    assert before[Size + Across(pit)] == opponent[Across(pit)] + 1 by {
      SpreadOneLap(ring, pit, RingSize - 1, Size + Across(pit));
    }
    DistributeOnCapture(mover, opponent, pit);
  }

  /** No capture on the opponent's row or in the store: when the last seed
      lands there, the move only adds seeds, to every cell but the chosen
      pit, and takes none from the opponent. */
  lemma OnlyOwnRowCaptures(mover: seq<int>, opponent: seq<int>, pit: int)
    requires Shaped(mover) && Shaped(opponent) && 0 <= pit < Pits && mover[pit] > 0
    requires LandingSlot(pit, mover[pit]) >= Store
    ensures var r := Distribute(mover, opponent, pit);
      && (forall j :: 0 <= j < Pits ==> r.opponent[j] >= opponent[j])
      && (forall i :: 0 <= i < Size && i != pit ==> r.mover[i] >= mover[i])
      && r.mover[Store] > mover[Store]
  {
    var n := mover[pit];
    var r := Distribute(mover, opponent, pit);
    var ring := Ring(mover[pit := 0], opponent);
    SpreadGrows(ring, pit, n);
    assert Ring(r.mover, r.opponent) == Spread(ring, pit, n);
    assert forall j :: 0 <= j < Pits ==> r.opponent[j] == Spread(ring, pit, n)[Size + j];
    assert forall i :: 0 <= i < Size ==> r.mover[i] == Spread(ring, pit, n)[i];
    StoreFed(ring, pit, n);
  }

  /** A move that reaches or passes the store drops a seed in it. */
  lemma StoreFed(ring: seq<int>, pit: int, n: nat)
    requires |ring| == RingSize && 0 <= pit < Pits && n > 0
    requires LandingSlot(pit, n) >= Store || n >= RingSize
    ensures Spread(ring, pit, n)[Store] > ring[Store]
  {
    var k := Store - pit;
    assert 0 < k <= n;
    assert LandingSlot(pit, k) == Store;
    SpreadGrows(ring, pit, k - 1);
    SpreadStep(ring, pit, k - 1);
    SpreadLater(ring, pit, k, n);
  }

  /** Later seeds never take away what earlier ones left. */
  lemma {:induction false} SpreadLater(ring: seq<int>, pit: int, k: nat, n: nat)
    requires |ring| == RingSize && k <= n
    ensures forall s :: 0 <= s < RingSize ==> Spread(ring, pit, n)[s] >= Spread(ring, pit, k)[s]
    decreases n - k
  {
    if k < n {
      SpreadLater(ring, pit, k, n - 1);
    }
  }
}
