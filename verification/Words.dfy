/** Machine words as bounded integers: truncation, sign, bytes and bitwise AND. */
module Words {
  type byte = x: int | 0 <= x < 0x100
  type u32 = x: int | 0 <= x < 0x1_0000_0000
  type u64 = x: int | 0 <= x < 0x1_0000_0000_0000_0000

  // A value already in range is its own truncation; spelling that out spares the verifier the division.

  function Wrap32(x: int): u32 {
    if 0 <= x < 0x1_0000_0000 then x else x % 0x1_0000_0000
  }

  function Wrap64(x: int): u64 {
    if 0 <= x < 0x1_0000_0000_0000_0000 then x else x % 0x1_0000_0000_0000_0000
  }

  /** Truncating early does not change a truncated sum. */
  lemma WrapSum(x: int, y: int)
    ensures Wrap64(Wrap64(x) + y) == Wrap64(x + y)
  {
    var q := x / 0x1_0000_0000_0000_0000;
    assert x == q * 0x1_0000_0000_0000_0000 + Wrap64(x);
    Shift(Wrap64(x) + y, q);
  }

  lemma {:induction false} Shift(x: int, q: int)
    ensures (x + q * 0x1_0000_0000_0000_0000) % 0x1_0000_0000_0000_0000 == x % 0x1_0000_0000_0000_0000
  {
  }

  /** A small difference survives 32-bit truncation of both the minuend and the difference. */
  lemma WrapDifference(x: int, n: u32)
    requires n <= x <= n + 4 && x <= 0x1_0000_0000
    ensures Wrap32(Wrap32(x) - n) == x - n
  {
  }

  function Signed32(x: u32): int {
    if x < 0x8000_0000 then x else x - 0x1_0000_0000
  }

  function Signed64(x: u64): int {
    if x < 0x8000_0000_0000_0000 then x else x - 0x1_0000_0000_0000_0000
  }

  /** Truncation keeps the remainder modulo 2^32 or 2^64, for negative values too. */
  lemma Truncation(x: int)
    ensures Wrap32(x) == x % 0x1_0000_0000
    ensures Wrap64(x) == x % 0x1_0000_0000_0000_0000
  {
  }

  /** The signed value of a word is the one number from -2^31 up to 2^31, or from -2^63 up to 2^63, that
      truncates to it. */
  lemma SignedValues(x: u32, y: u64)
    ensures -0x8000_0000 <= Signed32(x) < 0x8000_0000 && Signed32(x) % 0x1_0000_0000 == x
    ensures -0x8000_0000_0000_0000 <= Signed64(y) < 0x8000_0000_0000_0000
    ensures Signed64(y) % 0x1_0000_0000_0000_0000 == y
  {
  }

  // ----- Division -----

  lemma ProductSize(e: int, d: int)
    requires d > 0
    ensures e >= 1 ==> e * d >= d
    ensures e <= -1 ==> e * d <= -d
    ensures e >= 0 ==> e * d >= 0
  {
    if e >= 1 {
      assert (e - 1) * d >= 0;
    } else if e <= -1 {
      assert (-1 - e) * d >= 0;
    }
  }

  lemma DivMod(a: int, d: nat)
    requires d > 0
    ensures a == (a / d) * d + a % d && 0 <= a % d < d
  {
  }

  lemma RemainderOf(a: int, d: nat, q: int, r: int)
    requires d > 0 && a == q * d + r && 0 <= r < d
    ensures a % d == r && a / d == q
  {
    var e := a / d - q;
    assert a == (a / d) * d + a % d;
    assert e * d == (a / d) * d - q * d;
    ProductSize(e, d);
  }

  lemma Distribute(p: int, b: int, t: int, a: int)
    ensures (p * b + t) * a == p * (a * b) + t * a
  {
    assert (p * b + t) * a == (p * b) * a + t * a;
    assert (p * b) * a == p * (b * a);
  }

  lemma TwoRemainders(t: int, b: int, r: int, a: int)
    requires 0 <= t < b && 0 <= r < a
    ensures 0 <= t * a + r < a * b
  {
    ProductSize(t, a);
    ProductSize(b - 1 - t, a);
    assert a * b == (b - 1 - t) * a + t * a + a;
  }

  /** Dividing twice is dividing by the product. */
  lemma DivideTwice(v: nat, a: nat, b: nat)
    requires a > 0 && b > 0
    ensures a * b > 0 && (v / a) / b == v / (a * b)
  {
    var q, r := v / a, v % a;
    var p, t := q / b, q % b;
    DivMod(v, a);
    DivMod(q, b);
    Distribute(p, b, t, a);
    TwoRemainders(t, b, r, a);
    RemainderOf(v, a * b, p, t * a + r);
  }

  // ----- Powers of two -----

  function Pow2(k: nat): (p: nat)
    ensures p >= 1
  {
    if k == 0 then 1 else 2 * Pow2(k - 1)
  }

  lemma {:induction false} Pow2Sum(j: nat, k: nat)
    ensures Pow2(j + k) == Pow2(j) * Pow2(k)
  {
    if k > 0 {
      Pow2Sum(j, k - 1);
    }
  }

  lemma Pow2Byte(k: nat)
    ensures Pow2(8 * (k + 1)) == 0x100 * Pow2(8 * k)
  {
    assert Pow2(8) == 0x100;
    Pow2Sum(8, 8 * k);
  }

  lemma WordSizes()
    ensures Pow2(32) == 0x1_0000_0000
    ensures Pow2(64) == 0x1_0000_0000_0000_0000
  {
    assert Pow2(8) == 0x100;
    Pow2Sum(8, 8);
    Pow2Sum(16, 16);
    Pow2Sum(32, 32);
  }

  /** Byte `i` of a value, counted from the least significant. */
  function ByteAt(v: nat, i: nat): byte {
    if i == 0 then v % 0x100 else ByteAt(v / 0x100, i - 1)
  }

  /** Byte `i` is what is left of the value after dropping `8 * i` low bits, modulo 256. */
  lemma {:induction false} ByteValue(v: nat, i: nat)
    ensures ByteAt(v, i) == v / Pow2(8 * i) % 0x100
  {
    if i > 0 {
      ByteValue(v / 0x100, i - 1);
      Pow2Byte(i - 1);
      DivideTwice(v, 0x100, Pow2(8 * (i - 1)));
    }
  }

  // ----- Bitwise AND -----

  predicate Bit(x: nat, i: nat) {
    if i == 0 then x % 2 == 1 else Bit(x / 2, i - 1)
  }

  /** Bit `i` is the parity of the value after dropping `i` low bits. */
  lemma {:induction false} BitValue(x: nat, i: nat)
    ensures Bit(x, i) <==> x / Pow2(i) % 2 == 1
  {
    if i > 0 {
      BitValue(x / 2, i - 1);
      DivideTwice(x, 2, Pow2(i - 1));
    }
  }

  function And(x: nat, y: nat): (r: nat)
    ensures r <= x && r <= y
  {
    if x == 0 || y == 0 then 0
    else (if x % 2 == 1 && y % 2 == 1 then 1 else 0) + 2 * And(x / 2, y / 2)
  }

  lemma {:induction false} ZeroBits(i: nat)
    ensures !Bit(0, i)
  {
    if i > 0 {
      ZeroBits(i - 1);
    }
  }

  /** `And` is the bitwise conjunction: it agrees with `&&` at every bit position. */
  lemma {:induction false} AndBits(x: nat, y: nat, i: nat)
    ensures Bit(And(x, y), i) <==> Bit(x, i) && Bit(y, i)
  {
    if x == 0 || y == 0 {
      ZeroBits(i);
    } else {
      var r := And(x, y);
      assert r / 2 == And(x / 2, y / 2);
      if i > 0 {
        AndBits(x / 2, y / 2, i - 1);
      }
    }
  }

  lemma AndOne(x: nat)
    ensures And(x, 1) == x % 2
  {
    if x > 0 {
      assert And(x / 2, 0) == 0;
    }
  }
}
