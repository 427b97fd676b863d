/** Byte strings bit by bit: a byte string is determined by its bits, any bits make one, and
    byte order is decided by the first bit that differs. */
module Bits {
  import opened Bytes

  /** Halving reaches every bit but the lowest. */
  lemma {:induction false} HalfShift(x: nat, j: nat)
    requires j > 0
    ensures x / Pow2(j) == x / 2 / Pow2(j - 1)
  {
    var p := Pow2(j - 1);
    var q, r := x / 2, x % 2;
    DivisionUnique(x, 2 * p, q / p, 2 * (q % p) + r);
  }

  lemma {:induction false} DivisionUnique(x: nat, d: nat, q: nat, r: nat)
    requires d > 0 && x == d * q + r && r < d
    ensures x / d == q
  {
    var q' := x / d;
    assert x == d * q' + x % d;
    MulMonotone(d, q', q + 1);
    MulMonotone(d, q, q' + 1);
  }

  lemma {:induction false} AndBit(a: nat, b: nat, n: nat, j: nat)
    requires j < n
    ensures AndBits(a, b, n) / Pow2(j) % 2 == 1 <==> a / Pow2(j) % 2 == 1 && b / Pow2(j) % 2 == 1
  {
    if j > 0 {
      assert AndBits(a, b, n) / 2 == AndBits(a / 2, b / 2, n - 1);
      HalfShift(AndBits(a, b, n), j);
      HalfShift(a, j);
      HalfShift(b, j);
      AndBit(a / 2, b / 2, n - 1, j - 1);
    }
  }

  lemma {:induction false} BitsDetermine(a: nat, b: nat, n: nat)
    requires a < Pow2(n) && b < Pow2(n)
    requires forall j :: 0 <= j < n ==> (a / Pow2(j) % 2 == 1 <==> b / Pow2(j) % 2 == 1)
    ensures a == b
  {
    if n > 0 {
      forall j | 0 <= j < n - 1 ensures a / 2 / Pow2(j) % 2 == 1 <==> b / 2 / Pow2(j) % 2 == 1 {
        HalfShift(a, j + 1);
        HalfShift(b, j + 1);
        assert a / Pow2(j + 1) % 2 == 1 <==> b / Pow2(j + 1) % 2 == 1;
      }
      BitsDetermine(a / 2, b / 2, n - 1);
      assert a / Pow2(0) % 2 == 1 <==> b / Pow2(0) % 2 == 1;
    }
  }

  lemma {:induction false} AndByteBit(a: Byte, b: Byte, i: nat)
    requires i < 8
    ensures ByteBit(And(a, b), i) <==> ByteBit(a, i) && ByteBit(b, i)
  {
    AndBit(a, b, 8, 7 - i);
  }

  lemma {:induction false} SameByte(a: Byte, b: Byte)
    requires forall i :: 0 <= i < 8 ==> (ByteBit(a, i) <==> ByteBit(b, i))
    ensures a == b
  {
    Pow2Of8();
    forall j | 0 <= j < 8 ensures a / Pow2(j) % 2 == 1 <==> b / Pow2(j) % 2 == 1 {
      assert ByteBit(a, 7 - j) <==> ByteBit(b, 7 - j);
    }
    BitsDetermine(a, b, 8);
  }

  lemma {:induction false} SameBytes(a: Bytes, b: Bytes)
    requires |a| == |b| && forall k :: 0 <= k < 8 * |a| ==> (Bit(a, k) <==> Bit(b, k))
    ensures a == b
  {
    forall m | 0 <= m < |a| ensures a[m] == b[m] {
      forall i | 0 <= i < 8 ensures ByteBit(a[m], i) <==> ByteBit(b[m], i) {
        assert (8 * m + i) / 8 == m && (8 * m + i) % 8 == i;
        assert Bit(a, 8 * m + i) <==> Bit(b, 8 * m + i);
      }
      SameByte(a[m], b[m]);
    }
  }

  lemma {:induction false} XorBit(a: nat, b: nat, n: nat, j: nat)
    requires j < n
    ensures XorBits(a, b, n) / Pow2(j) % 2 == 1 <==> ((a / Pow2(j) % 2 == 1) != (b / Pow2(j) % 2 == 1))
  {
    if j > 0 {
      assert XorBits(a, b, n) / 2 == XorBits(a / 2, b / 2, n - 1);
      HalfShift(XorBits(a, b, n), j);
      HalfShift(a, j);
      HalfShift(b, j);
      XorBit(a / 2, b / 2, n - 1, j - 1);
    }
  }

  lemma {:induction false} XorByteBit(a: Byte, b: Byte, i: nat)
    requires i < 8
    ensures ByteBit(Xor(a, b), i) <==> ByteBit(a, i) != ByteBit(b, i)
  {
    XorBit(a, b, 8, 7 - i);
  }

  // ---- bytes from bits -----------------------------------------------------------------------

  /** The number whose `n` binary digits are `f(0)`, ..., `f(n - 1)`, the first the highest. */
  function FromBits(f: nat -> bool, n: nat): (r: nat)
    ensures r < Pow2(n)
  {
    if n == 0 then 0 else 2 * FromBits(f, n - 1) + (if f(n - 1) then 1 else 0)
  }

  lemma {:induction false} FromBitsAt(f: nat -> bool, n: nat, i: nat)
    requires i < n
    ensures FromBits(f, n) / Pow2(n - 1 - i) % 2 == 1 <==> f(i)
  {
    if i < n - 1 {
      HalfShift(FromBits(f, n), n - 1 - i);
      assert FromBits(f, n) / 2 == FromBits(f, n - 1);
      FromBitsAt(f, n - 1, i);
    }
  }

  function ByteFrom(f: nat -> bool): Byte {
    Pow2Of8();
    FromBits(f, 8)
  }

  /** The byte string of `w` bytes with these bits. */
  function BytesFrom(f: nat -> bool, w: nat): (b: Bytes)
    ensures |b| == w
  {
    seq(w, m requires 0 <= m => ByteFrom(EightFrom(f, m)))
  }

  /** The bits of byte `m`. */
  function EightFrom(f: nat -> bool, m: nat): nat -> bool {
    (i: nat) => f(8 * m + i)
  }

  lemma {:induction false} BytesFromAt(f: nat -> bool, w: nat, k: nat)
    requires k < 8 * w
    ensures Bit(BytesFrom(f, w), k) <==> f(k)
  {
    var m, i := k / 8, k % 8;
    assert 8 * m + i == k;
    FromBitsAt(EightFrom(f, m), 8, i);
    assert BytesFrom(f, w)[m] == ByteFrom(EightFrom(f, m));
  }

  // ---- order -----------------------------------------------------------------------------------

  /** `k` is the first bit in which the two differ. */
  predicate FirstDifference(a: Bytes, b: Bytes, k: nat)
    requires |a| == |b|
  {
    && k < 8 * |a| && Bit(a, k) != Bit(b, k)
    && forall j :: 0 <= j < k ==> (Bit(a, j) <==> Bit(b, j))
  }

  /** Numbers that agree above bit `j` are ordered by that bit. */
  lemma {:induction false} HighestBitDecides(a: nat, b: nat, j: nat)
    requires a / Pow2(j + 1) == b / Pow2(j + 1) && a / Pow2(j) % 2 == 0 && b / Pow2(j) % 2 == 1
    ensures a < b
  {
    HalvesOf(a, j);
    HalvesOf(b, j);
    var p := Pow2(j);
    assert b / p > a / p;
    if a >= b {
      QuotientMonotone(b, a, p);
    }
  }

  lemma {:induction false} HalvesOf(a: nat, j: nat)
    ensures a / Pow2(j) / 2 == a / Pow2(j + 1)
  {
    if j > 0 {
      HalfShift(a, j);
      HalvesOf(a / 2, j - 1);
      HalfShift(a, j + 1);
    }
  }

  lemma {:induction false} QuotientMonotone(a: nat, b: nat, p: nat)
    requires a <= b && p > 0
    ensures a / p <= b / p
  {
    MulMonotone(p, a / p, b / p + 1);
    assert p * (b / p + 1) == p * (b / p) + p;
    assert a >= p * (a / p) && b < p * (b / p) + p;
  }

  /** The high digits of a number are determined by its bits. */
  lemma {:induction false} HighDigits(a: Byte, b: Byte, j: nat)
    requires j <= 8 && forall i :: j <= i < 8 ==> (a / Pow2(i) % 2 == 1 <==> b / Pow2(i) % 2 == 1)
    ensures a / Pow2(j) == b / Pow2(j)
    decreases 8 - j
  {
    if j == 8 {
      Pow2Of8();
    } else {
      HighDigits(a, b, j + 1);
      HalvesOf(a, j);
      HalvesOf(b, j);
      assert a / Pow2(j) % 2 == 1 <==> b / Pow2(j) % 2 == 1;
    }
  }

  lemma {:induction false} ByteOrder(a: Byte, b: Byte, i: nat)
    requires i < 8 && !ByteBit(a, i) && ByteBit(b, i)
    requires forall j :: 0 <= j < i ==> (ByteBit(a, j) <==> ByteBit(b, j))
    ensures a < b
  {
    forall j | 8 - i <= j < 8 ensures a / Pow2(j) % 2 == 1 <==> b / Pow2(j) % 2 == 1 {
      assert ByteBit(a, 7 - j) <==> ByteBit(b, 7 - j);
    }
    HighDigits(a, b, 8 - i);
    HighestBitDecides(a, b, 7 - i);
  }

  lemma {:induction false} SameFirstByte(a: Bytes, b: Bytes, n: nat)
    requires |a| == |b| && 8 * n <= 8 * |a| && forall j :: 0 <= j < 8 * n ==> (Bit(a, j) <==> Bit(b, j))
    ensures a[..n] == b[..n]
  {
    forall m | 0 <= m < n ensures a[m] == b[m] {
      forall i | 0 <= i < 8 ensures ByteBit(a[m], i) <==> ByteBit(b[m], i) {
        assert (8 * m + i) / 8 == m && (8 * m + i) % 8 == i;
        assert Bit(a, 8 * m + i) <==> Bit(b, 8 * m + i);
      }
      SameByte(a[m], b[m]);
    }
  }

  lemma {:induction false} CompareAfter(a: Bytes, b: Bytes, n: nat)
    requires |a| == |b| && n < |a| && a[..n] == b[..n] && a[n] < b[n]
    ensures Compare(a, b) < 0
  {
    assert a[..n] == b[..n];
    if n > 0 {
      assert a[0] == a[..n][0] && b[0] == b[..n][0];
      assert a[1..][..n - 1] == a[..n][1..] && b[1..][..n - 1] == b[..n][1..];
      CompareAfter(a[1..], b[1..], n - 1);
    }
  }

  /** Byte order is decided by the first bit that differs. */
  lemma {:induction false} FirstBitDecides(a: Bytes, b: Bytes, k: nat)
    requires |a| == |b| && FirstDifference(a, b, k) && Bit(b, k)
    ensures Compare(a, b) < 0 && Compare(b, a) > 0
  {
    var m := k / 8;
    SameFirstByte(a, b, m);
    forall i | 0 <= i < k % 8 ensures ByteBit(a[m], i) <==> ByteBit(b[m], i) {
      assert (8 * m + i) / 8 == m && (8 * m + i) % 8 == i;
      assert Bit(a, 8 * m + i) <==> Bit(b, 8 * m + i);
    }
    ByteOrder(a[m], b[m], k % 8);
    CompareAfter(a, b, m);
    CompareFlips(a, b);
  }
}
