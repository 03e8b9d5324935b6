/** Integers as bit masks, in the unbounded two's complement of Python: bit i of m is set
    when `m & (1 << i)` is not zero. */
module Masks {

  function Pow2(n: nat): (p: nat)
    ensures p >= 1
  {
    if n == 0 then 1 else 2 * Pow2(n - 1)
  }

  predicate Bit(m: int, i: nat)
    decreases i
  {
    if i == 0 then m % 2 == 1 else Bit(m / 2, i - 1)
  }

  /** `m | (1 << i)` */
  function SetBit(m: int, i: nat): int {
    if Bit(m, i) then m else m + Pow2(i)
  }

  /** Adding a power of two to a mask that lacks its bit sets that bit and no other. */
  lemma {:induction false} AddPower(m: int, i: nat, j: nat)
    requires !Bit(m, i)
    ensures Bit(m + Pow2(i), j) <==> i == j || Bit(m, j)
    decreases i
  {
    if i == 0 {
      assert (m + 1) % 2 == 1 && (m + 1) / 2 == m / 2;
    } else {
      var half := Pow2(i - 1);
      assert (m + 2 * half) / 2 == m / 2 + half && (m + 2 * half) % 2 == m % 2;
      if j > 0 {
        AddPower(m / 2, i - 1, j - 1);
      }
    }
  }

  lemma SetBitSets(m: int, i: nat, j: nat)
    ensures Bit(SetBit(m, i), j) <==> i == j || Bit(m, j)
  {
    if !Bit(m, i) { AddPower(m, i, j); }
  }

  /** A mask below 2^n has no bit from n on. */
  lemma {:induction false} BelowPower(m: nat, n: nat, i: nat)
    requires m < Pow2(n) && n <= i
    ensures !Bit(m, i)
  {
    if n == 0 {
      if i > 0 { BelowPower(0, 0, i - 1); }
    } else {
      BelowPower(m / 2, n - 1, i - 1);
    }
  }

  /** A mask without bits from n on is below 2^n. */
  lemma {:induction false} NoBitsBelow(m: nat, n: nat)
    requires forall i: nat :: n <= i ==> !Bit(m, i)
    ensures m < Pow2(n)
    decreases m, n
  {
    if m > 0 {
      forall i: nat | (if n == 0 then 0 else n - 1) <= i ensures !Bit(m / 2, i) {
        assert !Bit(m, i + 1);
      }
      if n == 0 {
        assert !Bit(m, 0);
        NoBitsBelow(m / 2, 0);
        assert false;
      } else {
        NoBitsBelow(m / 2, n - 1);
      }
    }
  }

  /** Bits determine a mask that is not negative. */
  lemma {:induction false} BitsDetermine(a: nat, b: nat)
    requires forall i: nat :: Bit(a, i) <==> Bit(b, i)
    ensures a == b
    decreases a + b
  {
    if a + b > 0 {
      assert Bit(a, 0) <==> Bit(b, 0);
      forall i: nat ensures Bit(a / 2, i) <==> Bit(b / 2, i) {
        assert Bit(a, i + 1) <==> Bit(b, i + 1);
      }
      BitsDetermine(a / 2, b / 2);
    }
  }

  /** `sum(1 << place[k] for k in range(n) if mask & (1 << k))` */
  function Gather(mask: int, place: seq<nat>, n: nat): nat
    requires n <= |place|
  {
    if n == 0 then 0
    else Gather(mask, place, n - 1) + (if Bit(mask, n - 1) then Pow2(place[n - 1]) else 0)
  }

  /** When no two places agree, the sum is the mask with its bits moved to their places. */
  lemma {:induction false} GatherBits(mask: int, place: seq<nat>, n: nat, j: nat)
    requires n <= |place|
    requires forall a, b :: 0 <= a < b < |place| ==> place[a] != place[b]
    ensures Bit(Gather(mask, place, n), j) <==> exists k :: 0 <= k < n && place[k] == j && Bit(mask, k)
  {
    if n == 0 {
      BelowPower(0, 0, j);
    } else {
      GatherBits(mask, place, n - 1, j);
      if Bit(mask, n - 1) {
        GatherBits(mask, place, n - 1, place[n - 1]);
        AddPower(Gather(mask, place, n - 1), place[n - 1], j);
      }
    }
  }
}
