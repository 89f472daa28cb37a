/** The mask rounding macro `N_ROUND_UP` on 32-bit unsigned words. */
module Rounding {
  import opened Words
  import opened Layout

  function Not32(x: u32): u32 {
    0xFFFF_FFFF - x
  }

  lemma {:induction false} ComplementBits(x: nat, w: nat, i: nat)
    requires x < Pow2(w) && i < w
    ensures Bit(Pow2(w) - 1 - x, i) <==> !Bit(x, i)
  {
    assert (Pow2(w) - 1 - x) / 2 == Pow2(w - 1) - 1 - x / 2;
    if i > 0 {
      ComplementBits(x / 2, w - 1, i - 1);
    }
  }

  /** `Not32` is the bitwise complement: it flips every one of the 32 bits. */
  lemma NotBits(x: u32, i: nat)
    requires i < 32
    ensures Bit(Not32(x), i) <==> !Bit(x, i)
  {
    WordSizes();
    ComplementBits(x, 32, i);
  }

  function NRoundUp(x: u32, s: u32): u32 {
    And(Wrap32(Wrap32(x + s) - 1), Not32(Wrap32(s - 1)))
  }

  /** The macro bit by bit, for every value and every alignment: the bits of x + s - 1, modulo 2^32, where
      s - 1, modulo 2^32, has none. */
  lemma RoundBits(x: u32, s: u32, i: nat)
    requires i < 32
    ensures Bit(NRoundUp(x, s), i) <==> Bit((x + s - 1) % 0x1_0000_0000, i) && !Bit((s - 1) % 0x1_0000_0000, i)
  {
    hide And;
    hide Bit;
    var sum, low := (x + s - 1) % 0x1_0000_0000, (s - 1) % 0x1_0000_0000;
    assert Wrap32(Wrap32(x + s) - 1) == sum && Wrap32(s - 1) == low;
    AndBits(sum, Not32(low), i);
    NotBits(low, i);
  }

  // ----- Masking is division -----

  lemma {:induction false} AndAllOnes(a: nat, w: nat)
    requires a < Pow2(w)
    ensures And(a, Pow2(w) - 1) == a
  {
    if w > 0 && a > 0 {
      AndAllOnes(a / 2, w - 1);
      assert (Pow2(w) - 1) / 2 == Pow2(w - 1) - 1;
    }
  }

  lemma AndEven(a: nat, half: nat)
    ensures And(a, 2 * half) == 2 * And(a / 2, half)
  {
    if a > 0 && half > 0 {
      assert (2 * half) / 2 == half;
    }
  }

  /** Clearing the low `k` bits of a `w`-bit word drops its remainder modulo 2^k. */
  lemma {:induction false} MaskIsDivision(a: nat, w: nat, k: nat)
    requires k <= w && a < Pow2(w)
    ensures Pow2(k) <= Pow2(w)
    ensures And(a, Pow2(w) - Pow2(k)) == a - a % Pow2(k)
    decreases k
  {
    hide And;
    if k == 0 {
      AndAllOnes(a, w);
    } else {
      MaskIsDivision(a / 2, w - 1, k - 1);
      var mask, half := Pow2(w) - Pow2(k), Pow2(w - 1) - Pow2(k - 1);
      assert mask == 2 * half;
      AndEven(a, half);
      DoubledRemainder(a, Pow2(k - 1));
    }
  }

  lemma DoubledRemainder(a: nat, d: nat)
    requires d > 0
    ensures a % (2 * d) == 2 * ((a / 2) % d) + a % 2
  {
    var q, r := (a / 2) / d, (a / 2) % d;
    assert a / 2 == q * d + r;
    assert a == q * (2 * d) + (2 * r + a % 2);
    RemainderOf(a, 2 * d, q, 2 * r + a % 2);
  }

  // ----- Meaning -----

  predicate Multiple(m: int, s: nat)
    requires s > 0
  {
    m % s == 0
  }

  /** `r` is the least multiple of `s` that is at least `x`. */
  ghost predicate LeastMultiple(r: int, x: int, s: nat)
    requires s > 0
  {
    r >= x && Multiple(r, s) && forall m :: m >= x && Multiple(m, s) ==> r <= m
  }

  lemma Pow2Below(k: nat)
    requires k < 32
    ensures 1 <= Pow2(k) < 0x1_0000_0000
    ensures k == 0 <==> Pow2(k) == 1
  {
    WordSizes();
    Pow2Sum(k, 32 - k);
    assert Pow2(32 - k) >= 2;
    assert Pow2(k) * 2 <= Pow2(k) * Pow2(32 - k);
  }

  /** The 32-bit arithmetic of the macro's two operands. */
  lemma MacroOperands(x: u32, s: u32)
    requires s >= 1
    ensures Wrap32(Wrap32(x + s) - 1) == Wrap32(x + s - 1)
    ensures Not32(Wrap32(s - 1)) == 0x1_0000_0000 - s
  {
  }

  lemma MaskedWord(a: u32, k: nat)
    requires k < 32
    ensures 1 <= Pow2(k) < 0x1_0000_0000
    ensures And(a, 0x1_0000_0000 - Pow2(k)) == a - a % Pow2(k)
  {
    hide And;
    Pow2Below(k);
    WordSizes();
    MaskIsDivision(a, 32, k);
  }

  /** For a power of two the macro subtracts the remainder from the wrapped sum. */
  lemma RoundByRemainder(x: u32, k: nat)
    requires k < 32
    ensures 1 <= Pow2(k) < 0x1_0000_0000
    ensures var a := Wrap32(x + Pow2(k) - 1); NRoundUp(x, Pow2(k)) == a - a % Pow2(k)
  {
    hide And;
    hide Pow2;
    Pow2Below(k);
    MacroOperands(x, Pow2(k));
    hide Wrap32;
    hide Not32;
    MaskedWord(Wrap32(x + Pow2(k) - 1), k);
  }

  lemma LeastBelow(a: int, s: nat, m: int)
    requires s > 0 && Multiple(m, s) && m >= a - s + 1
    ensures a - a % s <= m
  {
    var q, p := a / s, m / s;
    assert a == q * s + a % s;
    assert m == p * s;
    assert (p - q) * s == p * s - q * s;
    ProductSize(p - q, s);
  }

  lemma DropRemainder(a: int, s: nat)
    requires s > 0
    ensures Multiple(a - a % s, s)
  {
    RemainderOf(a - a % s, s, a / s, 0);
  }

  lemma WrapOnce(x: nat)
    requires x < 0x2_0000_0000
    ensures Wrap32(x) == if x < 0x1_0000_0000 then x else x - 0x1_0000_0000
  {
  }

  /** For a power of two the macro yields the least multiple exactly when its 32-bit sum does not
      wrap; when it does wrap the macro yields 0. */
  lemma RoundsUpIff(x: u32, k: nat)
    requires k < 32
    ensures 1 <= Pow2(k) < 0x1_0000_0000
    ensures LeastMultiple(NRoundUp(x, Pow2(k)), x, Pow2(k)) <==> x + Pow2(k) - 1 < 0x1_0000_0000
    ensures x + Pow2(k) - 1 >= 0x1_0000_0000 ==> NRoundUp(x, Pow2(k)) == 0 && x > 0
  {
    hide NRoundUp;
    Pow2Below(k);
    RoundByRemainder(x, k);
    WrapOnce(x + Pow2(k) - 1);
    hide Pow2;
    hide Wrap32;
    if x + Pow2(k) - 1 < 0x1_0000_0000 {
      RoundedIsLeast(x, Pow2(k));
    } else {
      var a := x + Pow2(k) - 1 - 0x1_0000_0000;
      RemainderOf(a, Pow2(k), 0, a);
    }
  }

  /** Dropping the remainder of x + s - 1 gives the least multiple of `s` from x on. */
  lemma RoundedIsLeast(x: nat, s: nat)
    requires s > 0
    ensures var a := x + s - 1; LeastMultiple(a - a % s, x, s)
  {
    var a := x + s - 1;
    DropRemainder(a, s);
    forall m | m >= x && Multiple(m, s) ensures a - a % s <= m {
      LeastBelow(a, s, m);
    }
  }

  // ----- Which alignments work -----

  lemma {:induction false} NoCommonBits(a: nat, w: nat)
    requires a < Pow2(w)
    ensures And(a, Pow2(w) - 1 - a) == 0
  {
    if w > 0 {
      NoCommonBits(a / 2, w - 1);
      assert (Pow2(w) - 1 - a) / 2 == Pow2(w - 1) - 1 - a / 2;
      assert a % 2 == 0 || (Pow2(w) - 1 - a) % 2 == 0;
    }
  }

  /** The masked sum for x = 1 is the lowest one bit of the alignment. */
  lemma {:induction false} LowestBit(s: nat, w: nat) returns (j: nat)
    requires 0 < s < Pow2(w)
    ensures And(s, Pow2(w) - 1 - (s - 1)) == Pow2(j) && Multiple(s, Pow2(j))
    decreases w
  {
    var mask := Pow2(w) - s;
    if s % 2 == 1 {
      j := 0;
      NoCommonBits(s / 2, w - 1);
      assert mask / 2 == Pow2(w - 1) - 1 - s / 2;
      assert mask % 2 == 1;
    } else {
      var i := LowestBit(s / 2, w - 1);
      j := i + 1;
      assert mask / 2 == Pow2(w - 1) - s / 2;
      assert mask % 2 == 0 && mask > 0;
      DoubledRemainder(s, Pow2(i));
    }
  }

  ghost predicate PowerOfTwo(s: nat) {
    exists k :: Pow2(k) == s
  }

  lemma MaskOfOne(s: u32)
    requires s > 0
    ensures NRoundUp(1, s) == And(s, 0x1_0000_0000 - s)
  {
    hide And;
    MacroOperands(1, s);
  }

  /** Whatever the alignment, 1 is rounded to a power of two. */
  lemma RoundedOne(s: u32)
    requires s > 0
    ensures PowerOfTwo(NRoundUp(1, s))
  {
    hide And;
    hide NRoundUp;
    hide Pow2;
    hide Multiple;
    WordSizes();
    MaskOfOne(s);
    var j := LowestBit(s, 32);
  }

  /** Rounding 1 up to any other alignment does not yield the alignment. */
  lemma OnePowersOnly(s: u32)
    requires s > 0 && LeastMultiple(NRoundUp(1, s), 1, s)
    ensures PowerOfTwo(s)
  {
    hide And;
    LeastAtOne(NRoundUp(1, s), s);
    hide LeastMultiple;
    hide Multiple;
    hide NRoundUp;
    RoundedOne(s);
  }

  /** The macro rounds up correctly for every value whose 32-bit sum does not wrap exactly when the
      alignment is a power of two. */
  lemma PowersOnly(s: u32)
    requires s > 0
    ensures (forall x: u32 :: x + s - 1 < 0x1_0000_0000 ==> LeastMultiple(NRoundUp(x, s), x, s))
            <==> PowerOfTwo(s)
  {
    hide NRoundUp;
    hide LeastMultiple;
    if k: nat :| Pow2(k) == s {
      Pow2Large(k);
      forall x: u32 | x + s - 1 < 0x1_0000_0000 ensures LeastMultiple(NRoundUp(x, s), x, s) {
        RoundsUpIff(x, k);
      }
    } else if forall x: u32 :: x + s - 1 < 0x1_0000_0000 ==> LeastMultiple(NRoundUp(x, s), x, s) {
      OnePowersOnly(s);
    }
  }

  lemma Pow2Large(k: nat)
    ensures k >= 32 ==> Pow2(k) >= 0x1_0000_0000
  {
    WordSizes();
    if k >= 32 {
      Pow2Sum(32, k - 32);
      ProductSize(Pow2(k - 32), Pow2(32));
    }
  }

  lemma LeastAtOne(r: int, s: nat)
    requires s > 0 && LeastMultiple(r, 1, s)
    ensures r == s
  {
    RemainderOf(s, s, 1, 0);
    assert Multiple(s, s);
    if r < s {
      RemainderOf(r, s, 0, r);
    }
  }

  // ----- Algebra -----

  lemma LeastIsUnique(r: int, r': int, x: int, s: nat)
    requires s > 0 && LeastMultiple(r, x, s) && LeastMultiple(r', x, s)
    ensures r == r'
  {
  }

  lemma RoomBelow(r: int, s: int, q: int, top: int, limit: int)
    requires s > 0 && r == q * s && limit == top * s && r < limit
    ensures r + s <= limit
  {
    assert (top - q) * s == limit - r;
    ProductSize(q - top, s);
    ProductSize(top - q, s);
  }

  /** Every 32-bit multiple of a power of two leaves room for one more below 2^32. */
  lemma RoomAbove(r: u32, k: nat)
    requires k < 32 && Multiple(r, Pow2(k))
    ensures r + Pow2(k) <= 0x1_0000_0000
  {
    WordSizes();
    Pow2Sum(32 - k, k);
    hide Pow2;
    DivMod(r, Pow2(k));
    RoomBelow(r, Pow2(k), r / Pow2(k), Pow2(32 - k), 0x1_0000_0000);
  }

  lemma Regroup(q: int, d: int, s: int)
    ensures q * (d * s) == (q * d) * s
  {
  }

  lemma MultipleOfPower(m: int, j: nat, k: nat)
    requires j <= k && Multiple(m, Pow2(k))
    ensures Multiple(m, Pow2(j))
  {
    Pow2Sum(k - j, j);
    hide Pow2;
    var q, d, s := m / Pow2(k), Pow2(k - j), Pow2(j);
    DivMod(m, Pow2(k));
    Regroup(q, d, s);
    RemainderOf(m, s, q * d, 0);
  }

  lemma RoundedIsMultiple(x: u32, k: nat)
    requires k < 32
    ensures 1 <= Pow2(k) < 0x1_0000_0000
    ensures Multiple(NRoundUp(x, Pow2(k)), Pow2(k))
  {
    RoundByRemainder(x, k);
    DropRemainder(Wrap32(x + Pow2(k) - 1), Pow2(k));
  }

  /** Rounding twice is rounding once, also for values whose first rounding wrapped. */
  lemma Idempotent(x: u32, k: nat)
    requires k < 32
    ensures 1 <= Pow2(k) < 0x1_0000_0000
    ensures var r := NRoundUp(x, Pow2(k)); NRoundUp(r, Pow2(k)) == r
  {
    hide NRoundUp;
    RoundedIsMultiple(x, k);
    var r := NRoundUp(x, Pow2(k));
    RoomAbove(r, k);
    RoundsUpIff(r, k);
    LeastIsUnique(NRoundUp(r, Pow2(k)), r, r, Pow2(k));
  }

  /** A value is rounded to 0 exactly when it is 0 or its sum wraps. */
  lemma ZeroIff(x: u32, k: nat)
    requires k < 32
    ensures 1 <= Pow2(k) < 0x1_0000_0000
    ensures NRoundUp(x, Pow2(k)) == 0 <==> x == 0 || x + Pow2(k) - 1 >= 0x1_0000_0000
  {
    hide NRoundUp;
    RoundsUpIff(x, k);
    RoundsUpIff(0, k);
    RemainderOf(0, Pow2(k), 0, 0);
    assert Multiple(0, Pow2(k));
  }

  /** Rounding preserves the order of two values exactly when the larger one's sum does not wrap, unless
      the smaller one is rounded to 0 anyway. */
  lemma MonotoneIff(x: u32, y: u32, k: nat)
    requires k < 32 && x <= y
    ensures 1 <= Pow2(k) < 0x1_0000_0000
    ensures NRoundUp(x, Pow2(k)) <= NRoundUp(y, Pow2(k))
            <==> y + Pow2(k) - 1 < 0x1_0000_0000 || x == 0 || x + Pow2(k) - 1 >= 0x1_0000_0000
  {
    hide NRoundUp;
    RoundsUpIff(x, k);
    RoundsUpIff(y, k);
    ZeroIff(x, k);
    ZeroIff(y, k);
  }

  lemma Pow2Order(j: nat, k: nat)
    ensures j <= k ==> Pow2(j) <= Pow2(k)
  {
    if j <= k {
      Pow2Sum(j, k - j);
      ProductSize(Pow2(k - j), Pow2(j));
    }
  }

  /** Rounding to a smaller power of two first makes no difference when the larger sum does not wrap. */
  lemma SmallerFirst(x: u32, j: nat, k: nat)
    requires j < k < 32 && x + Pow2(k) - 1 < 0x1_0000_0000
    ensures 1 <= Pow2(j) <= Pow2(k) < 0x1_0000_0000
    ensures NRoundUp(NRoundUp(x, Pow2(j)), Pow2(k)) == NRoundUp(x, Pow2(k))
  {
    hide NRoundUp;
    Pow2Order(j, k);
    RoundsUpIff(x, j);
    RoundsUpIff(x, k);
    var r, q := NRoundUp(x, Pow2(j)), NRoundUp(x, Pow2(k));
    MultipleOfPower(q, j, k);
    RoomAbove(q, k);
    RoundsUpIff(r, k);
  }

  /** Nor when it does: what is then rounded is 0 or still too large. */
  lemma SmallerFirstWraps(x: u32, j: nat, k: nat)
    requires j < k < 32 && x + Pow2(k) - 1 >= 0x1_0000_0000
    ensures 1 <= Pow2(j) <= Pow2(k) < 0x1_0000_0000
    ensures NRoundUp(NRoundUp(x, Pow2(j)), Pow2(k)) == NRoundUp(x, Pow2(k))
  {
    hide NRoundUp;
    Pow2Order(j, k);
    RoundsUpIff(x, j);
    ZeroIff(x, k);
    ZeroIff(NRoundUp(x, Pow2(j)), k);
  }

  /** Rounding to one power of two and then to another is rounding to the larger, wrapped sums included. */
  lemma RoundsToLarger(x: u32, j: nat, k: nat)
    requires j < 32 && k < 32
    ensures 1 <= Pow2(j) < 0x1_0000_0000 && 1 <= Pow2(k) < 0x1_0000_0000
    ensures NRoundUp(NRoundUp(x, Pow2(j)), Pow2(k)) == NRoundUp(x, Pow2(if j < k then k else j))
  {
    hide NRoundUp;
    Pow2Below(j);
    Pow2Below(k);
    if j < k {
      if x + Pow2(k) - 1 < 0x1_0000_0000 {
        SmallerFirst(x, j, k);
      } else {
        SmallerFirstWraps(x, j, k);
      }
    } else {
      var r := NRoundUp(x, Pow2(j));
      RoundedIsMultiple(x, j);
      MultipleOfPower(r, k, j);
      RoomAbove(r, k);
      RoundsUpIff(r, k);
      LeastIsUnique(NRoundUp(r, Pow2(k)), r, r, Pow2(k));
    }
  }

  // ----- The thunk's own rounding -----

  /** The thunk's compare-and-increment computes what the macro would, for every count but the
      largest; there the macro's 32-bit sum wraps to 0 where the thunk's 64-bit register holds 2^32. */
  lemma SlotsAreRounded(n: u32)
    ensures var m := if n < 4 then 4 else n;
            && (Slots(n) == NRoundUp(m, 2) <==> n != 0xFFFF_FFFF)
            && (n == 0xFFFF_FFFF ==> Slots(n) - NRoundUp(m, 2) == 0x1_0000_0000)
  {
    var m := if n < 4 then 4 else n;
    assert Pow2(1) == 2;
    RoundByRemainder(m, 1);
  }
}
