/** What a store changes and what it leaves alone. */
module MemoryLaws {
  import opened Words
  import opened X64

  /** The address ranges [a, a + m) and [b, b + n) have no byte in common. */
  predicate Apart(a: int, m: nat, b: int, n: nat) {
    a + m <= b || b + n <= a
  }

  /** The two memories agree on the address range [a, a + n). */
  ghost predicate Same(m: Memory, m': Memory, a: int, n: nat)
    requires InSpace(a, n)
  {
    forall x: u64 :: a <= x < a + n ==> m(x) == m'(x)
  }

  /** A load sees only the bytes it covers. */
  lemma {:induction false} LoadSame(m: Memory, m': Memory, a: int, k: nat)
    requires InSpace(a, k) && Same(m, m', a, k)
    ensures Load(m, a, k) == Load(m', a, k)
    decreases k
  {
    if k > 0 {
      LoadSame(m, m', a + 1, k - 1);
    }
  }

  lemma ReadSame(m: Memory, m': Memory, a: int)
    requires InSpace(a, 8) && Same(m, m', a, 8)
    ensures Read64(m, a) == Read64(m', a)
  {
    LoadSame(m, m', a, 8);
  }

  /** Loading bytes that hold a value, least significant first, yields that value. */
  lemma {:induction false} LoadValue(m: Memory, a: int, k: nat, v: nat)
    requires InSpace(a, k) && v < Pow2(8 * k)
    requires forall x: u64 :: a <= x < a + k ==> m(x) == ByteAt(v, x - a)
    ensures Load(m, a, k) == v
    decreases k
  {
    if k > 0 {
      Pow2Byte(k - 1);
      assert m(a) == ByteAt(v, 0);
      LoadValue(m, a + 1, k - 1, v / 0x100);
    }
  }

  /** A store is read back by a load of the same address. */
  lemma ReadWritten(m: Memory, a: int, v: u64)
    requires InSpace(a, 8)
    ensures Read64(Write64(m, a, v), a) == v
  {
    WordSizes();
    LoadValue(Write64(m, a, v), a, 8, v);
  }

  /** A qword apart from the stored one reads the same. */
  lemma ReadElsewhere(m: Memory, a: int, v: u64, b: int)
    requires InSpace(a, 8) && InSpace(b, 8) && Apart(a, 8, b, 8)
    ensures Read64(Write64(m, a, v), b) == Read64(m, b)
  {
    LoadSame(Write64(m, a, v), m, b, 8);
  }

  // ----- Byte order -----

  /** A dword is read with its least significant byte first. */
  lemma Read32Bytes(m: Memory, a: int)
    requires InSpace(a, 4)
    ensures Read32(m, a) == m(a) + 0x100 * m(a + 1) + 0x1_0000 * m(a + 2) + 0x100_0000 * m(a + 3)
  {
    assert Load(m, a + 3, 1) == m(a + 3);
    assert Load(m, a + 2, 2) == m(a + 2) + 0x100 * Load(m, a + 3, 1);
    assert Load(m, a + 1, 3) == m(a + 1) + 0x100 * Load(m, a + 2, 2);
  }

  lemma {:induction false} LoadSplit(m: Memory, a: int, k: nat)
    requires k >= 4 && InSpace(a, k)
    ensures Load(m, a, k) == Read32(m, a) + 0x1_0000_0000 * Load(m, a + 4, k - 4)
  {
    assert Load(m, a + 3, k - 3) == m(a + 3) + 0x100 * Load(m, a + 4, k - 4);
    assert Load(m, a + 2, k - 2) == m(a + 2) + 0x100 * Load(m, a + 3, k - 3);
    assert Load(m, a + 1, k - 1) == m(a + 1) + 0x100 * Load(m, a + 2, k - 2);
    Read32Bytes(m, a);
  }

  /** A qword is read with its least significant byte first. */
  lemma Read64Bytes(m: Memory, a: int)
    requires InSpace(a, 8)
    ensures Read64(m, a) ==
            m(a) + 0x100 * m(a + 1) + 0x1_0000 * m(a + 2) + 0x100_0000 * m(a + 3)
            + 0x1_0000_0000 * m(a + 4) + 0x100_0000_0000 * m(a + 5)
            + 0x1_0000_0000_0000 * m(a + 6) + 0x100_0000_0000_0000 * m(a + 7)
  {
    LoadSplit(m, a, 8);
    Read32Bytes(m, a);
    Read32Bytes(m, a + 4);
  }

  /** A qword is stored with its least significant byte first. */
  lemma Write64Bytes(m: Memory, a: int, v: u64, i: nat)
    requires InSpace(a, 8) && i < 8
    ensures Write64(m, a, v)(a + i) == v / Pow2(8 * i) % 0x100
  {
    ByteValue(v, i);
  }
}
