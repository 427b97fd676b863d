/** Byte strings as registers and set keys hold them: the byte-wise order, big-endian
    numbers, and single bits counted from the most significant one. */
module Bytes {
  import opened Wrappers

  type Byte = x: int | 0 <= x < 256

  type Bytes = seq<Byte>

  /** A value the document spells in hexadecimal: its bytes, or text that does not decode. */
  datatype Hex = Hex(bytes: Bytes) | NotHex

  function Pow2(n: nat): (p: nat)
    ensures p >= 1
  {
    if n == 0 then 1 else 2 * Pow2(n - 1)
  }

  /** Bit-wise conjunction of the low `n` bits. */
  function AndBits(a: nat, b: nat, n: nat): (r: nat)
    ensures r < Pow2(n)
  {
    if n == 0 then 0
    else 2 * AndBits(a / 2, b / 2, n - 1) + (if a % 2 == 1 && b % 2 == 1 then 1 else 0)
  }

  /** Bit-wise exclusive or of the low `n` bits. */
  function XorBits(a: nat, b: nat, n: nat): (r: nat)
    ensures r < Pow2(n)
  {
    if n == 0 then 0
    else 2 * XorBits(a / 2, b / 2, n - 1) + (if a % 2 != b % 2 then 1 else 0)
  }

  lemma {:induction false} Pow2Of8()
    ensures Pow2(8) == 256
  {
    assert Pow2(4) == 16;
  }

  function And(a: Byte, b: Byte): Byte {
    Pow2Of8();
    AndBits(a, b, 8)
  }

  function Xor(a: Byte, b: Byte): Byte {
    Pow2Of8();
    XorBits(a, b, 8)
  }

  /** `bytes.Compare`: negative, zero or positive; a proper prefix is smaller. It is stated on
      integers so that character codes can be compared with it too. */
  function Compare(a: seq<int>, b: seq<int>): int {
    if a == [] then (if b == [] then 0 else -1)
    else if b == [] then 1
    else if a[0] < b[0] then -1
    else if a[0] > b[0] then 1
    else Compare(a[1..], b[1..])
  }

  lemma {:induction false} CompareEqual(a: seq<int>, b: seq<int>)
    ensures Compare(a, b) == 0 <==> a == b
  {
    if a != [] && b != [] && a[0] == b[0] {
      CompareEqual(a[1..], b[1..]);
      assert a == [a[0]] + a[1..] && b == [b[0]] + b[1..];
    }
  }

  lemma {:induction false} CompareFlips(a: seq<int>, b: seq<int>)
    ensures Compare(a, b) == -Compare(b, a)
  {
    if a != [] && b != [] && a[0] == b[0] {
      CompareFlips(a[1..], b[1..]);
    }
  }

  lemma {:induction false} CompareTransitive(a: seq<int>, b: seq<int>, c: seq<int>)
    requires Compare(a, b) <= 0 && Compare(b, c) <= 0
    ensures Compare(a, c) <= 0
  {
    if a != [] && b != [] && c != [] && a[0] == b[0] == c[0] {
      CompareTransitive(a[1..], b[1..], c[1..]);
    }
  }

  function Pow256(n: nat): (p: nat)
    ensures p >= 1
  {
    if n == 0 then 1 else 256 * Pow256(n - 1)
  }

  /** The number a big-endian byte string spells. */
  function Num(b: Bytes): nat {
    if b == [] then 0 else b[0] * Pow256(|b| - 1) + Num(b[1..])
  }

  lemma {:induction false} MulMonotone(p: nat, q: nat, r: nat)
    ensures q >= r ==> p * q >= p * r
  {
  }

  lemma {:induction false} NumBound(b: Bytes)
    ensures Num(b) < Pow256(|b|)
  {
    if b != [] {
      NumBound(b[1..]);
      MulMonotone(Pow256(|b| - 1), 255, b[0]);
    }
  }

  lemma {:induction false} HighByteDecides(x: nat, y: nat, p: nat, m: nat, n: nat)
    requires x < y && m < p
    ensures x * p + m < y * p + n
  {
    MulMonotone(p, y, x + 1);
    assert p * (x + 1) == p * x + p;
  }

  /** Byte order is numeric order for equal widths, which is what lets one comparison serve
      ports and addresses alike. */
  lemma {:induction false} CompareIsNumeric(a: Bytes, b: Bytes)
    requires |a| == |b|
    ensures Compare(a, b) < 0 <==> Num(a) < Num(b)
    ensures Compare(a, b) > 0 <==> Num(a) > Num(b)
  {
    if a != [] {
      var p, m, n := Pow256(|a| - 1), Num(a[1..]), Num(b[1..]);
      NumBound(a[1..]);
      NumBound(b[1..]);
      if a[0] < b[0] {
        HighByteDecides(a[0], b[0], p, m, n);
      } else if a[0] > b[0] {
        HighByteDecides(b[0], a[0], p, n, m);
      } else {
        CompareIsNumeric(a[1..], b[1..]);
      }
    }
  }

  /** The next byte string of the same width, unless this is the last one. */
  function Increment(b: Bytes): (r: Option<Bytes>)
    ensures r.Some? ==> |r.value| == |b|
  {
    if b == [] then None
    else
      var low := Increment(b[1..]);
      if low.Some? then Some([b[0]] + low.value)
      else if b[0] == 255 then None
      else Some([b[0] + 1] + Zeros(|b| - 1))
  }

  lemma {:induction false} NumOfZeros(n: nat)
    ensures Num(Zeros(n)) == 0
  {
    if n > 0 {
      assert Zeros(n)[1..] == Zeros(n - 1);
      NumOfZeros(n - 1);
    }
  }

  lemma {:induction false} NumSplits(first: Byte, rest: Bytes)
    ensures Num([first] + rest) == first * Pow256(|rest|) + Num(rest)
  {
    assert ([first] + rest)[1..] == rest;
  }

  lemma {:induction false} NumOfIncrement(b: Bytes)
    ensures Increment(b).Some? <==> Num(b) + 1 < Pow256(|b|)
    ensures Increment(b).Some? ==> Num(Increment(b).value) == Num(b) + 1
  {
    if b != [] {
      var first: nat, p, n := b[0], Pow256(|b| - 1), Num(b[1..]);
      var low := Increment(b[1..]);
      NumOfIncrement(b[1..]);
      NumBound(b[1..]);
      assert Num(b) == first * p + n && Pow256(|b|) == 256 * p;
      if low.Some? {
        NumSplits(b[0], low.value);
        HighByteDecides(first, 256, p, n + 1, 0);
      } else if first < 255 {
        NumOfZeros(|b| - 1);
        NumSplits(first + 1, Zeros(|b| - 1));
        HighByteDecides(first + 1, 256, p, 0, 0);
        assert (first + 1) * p == first * p + p;
      }
    }
  }

  lemma {:induction false} NumInjective(a: Bytes, b: Bytes)
    requires |a| == |b| && Num(a) == Num(b)
    ensures a == b
  {
    CompareIsNumeric(a, b);
    CompareEqual(a, b);
  }

  /** Bit `i` of one byte, 0 being the most significant. */
  predicate ByteBit(b: Byte, i: nat)
    requires i < 8
  {
    b / Pow2(7 - i) % 2 == 1
  }

  /** Bit `k` of a byte string, 0 being the most significant bit of the first byte. */
  predicate Bit(b: Bytes, k: nat)
    requires k < 8 * |b|
  {
    ByteBit(b[k / 8], k % 8)
  }

  function Zeros(n: nat): (b: Bytes)
    ensures |b| == n && forall i :: 0 <= i < n ==> b[i] == 0
  {
    seq(n, i => 0)
  }

  function Ones(n: nat): (b: Bytes)
    ensures |b| == n && forall i :: 0 <= i < n ==> b[i] == 255
  {
    seq(n, i => 255)
  }

  lemma {:induction false} AndBitsWithOnes(a: nat, n: nat)
    requires a < Pow2(n)
    ensures AndBits(a, Pow2(n) - 1, n) == a
  {
    if n > 0 {
      AndBitsWithOnes(a / 2, n - 1);
      assert (Pow2(n) - 1) / 2 == Pow2(n - 1) - 1;
    }
  }

  lemma {:induction false} AndBitsWithZero(a: nat, n: nat)
    ensures AndBits(a, 0, n) == 0
  {
    if n > 0 {
      AndBitsWithZero(a / 2, n - 1);
    }
  }

  lemma {:induction false} XorBitsWithZero(a: nat, n: nat)
    requires a < Pow2(n)
    ensures XorBits(a, 0, n) == a
  {
    if n > 0 {
      XorBitsWithZero(a / 2, n - 1);
    }
  }

  /** Masking with 255 keeps a byte, masking with 0 clears it, and a zero xor changes nothing. */
  lemma {:induction false} MaskIdentities(a: Byte)
    ensures And(a, 255) == a && And(a, 0) == 0 && Xor(a, 0) == a
  {
    Pow2Of8();
    AndBitsWithOnes(a, 8);
    AndBitsWithZero(a, 8);
    XorBitsWithZero(a, 8);
  }
}
