/** Which cells a status reply describes: the non-zero u16 slots, kept in slot
    order, and the balancing flag each of them takes from the bitmask. */
module CellCompaction {

  /** The voltages of the cells present: the non-zero slots, in slot order. */
  function LiveCells(slots: seq<nat>): (live: seq<nat>)
    ensures |live| <= |slots|
  {
    if |slots| == 0 then []
    else LiveCells(slots[..|slots| - 1]) + Keep(slots[|slots| - 1])
  }

  /** What one slot contributes to the cell list. */
  function Keep(v: nat): seq<nat> {
    if v != 0 then [v] else []
  }

  /** Scanning one more slot appends that slot's cell, if any, to the list
      built so far. */
  lemma LiveCellsExtend(slots: seq<nat>, k: nat)
    requires k < |slots|
    ensures LiveCells(slots[..k + 1]) == LiveCells(slots[..k]) + Keep(slots[k])
  {
    assert slots[..k + 1][..k] == slots[..k];
  }

  /** Every cell present has a non-zero voltage. */
  lemma {:induction false} LiveCellsNonZero(slots: seq<nat>)
    ensures forall i :: 0 <= i < |LiveCells(slots)| ==> LiveCells(slots)[i] != 0
  {
    if |slots| > 0 {
      LiveCellsNonZero(slots[..|slots| - 1]);
    }
  }

  /** The cell count is the number of non-zero slots, and the cells present
      carry exactly the non-zero slot values, each as often as it occurs. */
  lemma {:induction false} LiveCellsCount(slots: seq<nat>)
    ensures |LiveCells(slots)| == |slots| - multiset(slots)[0]
    ensures forall v :: v != 0 ==> multiset(LiveCells(slots))[v] == multiset(slots)[v]
    ensures multiset(LiveCells(slots))[0] == 0
  {
    if |slots| > 0 {
      var n := |slots|;
      LiveCellsCount(slots[..n - 1]);
      assert slots == slots[..n - 1] + [slots[n - 1]];
      assert multiset(slots) == multiset(slots[..n - 1]) + multiset{slots[n - 1]};
      assert multiset(LiveCells(slots)) == multiset(LiveCells(slots[..n - 1])) + multiset(Keep(slots[n - 1]));
    }
  }

  /** No cells exactly when every slot is zero. */
  lemma {:induction false} LiveCellsEmpty(slots: seq<nat>)
    ensures LiveCells(slots) == [] <==> forall j :: 0 <= j < |slots| ==> slots[j] == 0
  {
    LiveCellsCount(slots);
    if LiveCells(slots) == [] {
      forall j | 0 <= j < |slots| ensures slots[j] == 0 {
        assert slots[j] in multiset(slots);
      }
    } else {
      var v := LiveCells(slots)[0];
      assert v in multiset(LiveCells(slots));
      assert v in multiset(slots);
      var j :| 0 <= j < |slots| && slots[j] == v;
    }
  }

  /** The cells built from a prefix of the slots are a prefix of the cells. */
  lemma {:induction false} LiveCellsPrefix(slots: seq<nat>, k: nat)
    requires k <= |slots|
    ensures |LiveCells(slots[..k])| <= |LiveCells(slots)|
    ensures LiveCells(slots)[..|LiveCells(slots[..k])|] == LiveCells(slots[..k])
    decreases |slots| - k
  {
    if k < |slots| {
      LiveCellsPrefix(slots, k + 1);
      LiveCellsExtend(slots, k);
      var all, here, next := LiveCells(slots), LiveCells(slots[..k]), LiveCells(slots[..k + 1]);
      assert next == here + Keep(slots[k]);
      assert all[..|next|] == next;
      assert all[..|here|] == all[..|next|][..|here|];
    } else {
      assert slots[..k] == slots;
    }
  }

  /** Slot order: a non-zero slot j becomes cell number c, where c is the
      number of non-zero slots before j. So a later slot never precedes an
      earlier one among the cells. */
  lemma SlotOrder(slots: seq<nat>, j: nat)
    requires j < |slots| && slots[j] != 0
    ensures |LiveCells(slots[..j])| < |LiveCells(slots)|
    ensures LiveCells(slots)[|LiveCells(slots[..j])|] == slots[j]
  {
    LiveCellsPrefix(slots, j + 1);
    LiveCellsExtend(slots, j);
    var before, upTo := LiveCells(slots[..j]), LiveCells(slots[..j + 1]);
    assert upTo == before + [slots[j]];
    assert LiveCells(slots)[|before|] == LiveCells(slots)[..|upTo|][|before|] == upTo[|before|];
  }

  function Pow2(i: nat): (p: nat)
    ensures p >= 1
  {
    if i == 0 then 1 else 2 * Pow2(i - 1)
  }

  /** Bit i of the balancing mask: shift right i times, then test the low bit. */
  predicate Balancing(mask: nat, i: nat) {
    if i == 0 then mask % 2 == 1 else Balancing(mask / 2, i - 1)
  }

  /** The shift-and-test reading agrees with Python's `mask & pow(2, i) != 0`,
      that is, with the i-th binary digit `(mask / 2^i) % 2`. */
  lemma {:induction false} BalancingBit(mask: nat, i: nat)
    ensures Balancing(mask, i) <==> (mask / Pow2(i)) % 2 == 1
  {
    if i > 0 {
      BalancingBit(mask / 2, i - 1);
      HalfThenDivide(mask, Pow2(i - 1));
    }
  }

  /** Halving and then dividing by p is dividing by 2 * p. */
  lemma HalfThenDivide(x: nat, p: nat)
    requires p > 0
    ensures x / 2 / p == x / (2 * p)
  {
    var q := x / 2 / p;
    var r := x / 2 % p;
    var h := x % 2;
    assert x == 2 * (x / 2) + h;
    assert x / 2 == p * q + r;
    var rest := 2 * r + h;
    assert x == (2 * p) * q + rest;
    var k := p - r;
    assert k >= 1;
    assert 2 * p == 2 * r + 2 * k;
    assert rest < 2 * p;
    DivUnique(x, 2 * p, q, rest);
  }
  /** Integer division is determined by a quotient and a remainder below the divisor. */
  lemma DivUnique(x: nat, d: nat, q: nat, r: nat)
    requires d > 0 && x == d * q + r && r < d
    ensures x / d == q
  {
    var q0, r0 := x / d, x % d;
    assert x == d * q0 + r0 && r0 < d;
    assert d * q < d * (q0 + 1);
    MulCancelLess(d, q, q0 + 1);
    assert d * q0 < d * (q + 1);
    MulCancelLess(d, q0, q + 1);
  }

  lemma MulCancelLess(d: int, a: int, c: int)
    requires d > 0 && d * a < d * c
    ensures a < c
  {
  }

  /** A cell can only be balancing when the mask is non-zero, so the
      balance flag of the pack covers every balancing cell. */
  lemma {:induction false} BalancingNeedsMask(mask: nat, i: nat)
    requires Balancing(mask, i)
    ensures mask != 0
  {
    if i > 0 {
      BalancingNeedsMask(mask / 2, i - 1);
    }
  }
}
