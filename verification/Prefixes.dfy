/** Masked comparisons read as prefixes: which masks are prefixes, and when "the field is in
    value/n" is what a masked comparison tests. */
module Prefixes {
  import opened Wrappers
  import opened Bytes
  import opened Bits
  import opened Words
  import opened Facts
  import opened Matcher

  /** `n` ones, then zeros. */
  predicate IsPrefixMask(mask: Bytes, n: nat) {
    n <= 8 * |mask| && forall k :: 0 <= k < 8 * |mask| ==> (Bit(mask, k) <==> k < n)
  }

  /** `prefixLen`: the run of ones at the front, refused at the first one after a zero. */
  method PrefixLen(mask: Bytes) returns (n: nat, ok: bool)
    ensures ok ==> IsPrefixMask(mask, n)
    ensures !ok ==> n == 0 && forall m :: !IsPrefixMask(mask, m)
  {
    n := 0;
    var seenZero := false;
    for b := 0 to |mask|
      invariant n <= 8 * b && (seenZero <==> n < 8 * b)
      invariant forall k :: 0 <= k < 8 * b ==> (Bit(mask, k) <==> k < n)
    {
      for i := 8 downto 0
        invariant n <= 8 * b + (8 - i) && (seenZero <==> n < 8 * b + (8 - i))
        invariant forall k :: 0 <= k < 8 * b + (8 - i) ==> (Bit(mask, k) <==> k < n)
      {
        ghost var at := 8 * b + (7 - i);
        assert at / 8 == b && at % 8 == 7 - i;
        if ByteBit(mask[b], 7 - i) {
          assert Bit(mask, at);
          if seenZero {
            assert !Bit(mask, n);
            return 0, false;
          }
          n := n + 1;
        } else {
          assert !Bit(mask, at);
          seenZero := true;
        }
      }
    }
    ok := true;
  }

  /** A mask is a prefix of one length only. */
  lemma {:induction false} OneLength(mask: Bytes, n: nat, m: nat)
    requires IsPrefixMask(mask, n) && IsPrefixMask(mask, m)
    ensures n == m
  {
    assert n < 8 * |mask| ==> (Bit(mask, n) <==> n < m);
    assert m < 8 * |mask| ==> (Bit(mask, m) <==> m < n);
  }

  /** "The field is in value/n": the first `n` bits agree. */
  predicate InPrefix(a: Bytes, value: Bytes, n: nat)
    requires n <= 8 * |value| && |value| <= |a|
  {
    forall k :: 0 <= k < n ==> (Bit(a, k) <==> Bit(value, k))
  }

  /** The bits a comparison sees after `(a & mask) ^ xor`. */
  lemma {:induction false} MaskedBit(a: Bytes, mask: Bytes, xor: Bytes, k: nat)
    requires |mask| == |xor| && |mask| <= |a| && k < 8 * |mask|
    ensures Bit(MaskBytes(a, mask, xor), k) <==> ((Bit(a, k) && Bit(mask, k)) != Bit(xor, k))
  {
    var m, i := k / 8, k % 8;
    AndByteBit(a[m], mask[m], i);
    XorByteBit(And(a[m], mask[m]), xor[m], i);
  }

  // ---- registers after a masked load -----------------------------------------------------

  /** The first `n` bits, as a word. */
  function Top(b: Bytes, n: nat): (t: Word)
    requires n <= 8 * |b|
    ensures |t| == n && forall k :: 0 <= k < n ==> t[k] == Bit(b, k)
  {
    seq(n, k requires 0 <= k < n => Bit(b, k))
  }

  /** What a register can hold: any first `n` bits, and the xor's bits after them. */
  predicate IsRegister(g: Bytes, x: Bytes, n: nat) {
    |g| == |x| && forall k :: n <= k < 8 * |x| ==> (Bit(g, k) <==> Bit(x, k))
  }

  /** The register whose first bits are `t`. */
  function Register(t: Word, x: Bytes): (g: Bytes)
    ensures |g| == |x|
  {
    BytesFrom((k: nat) => if k < |t| then t[k] else k < 8 * |x| && Bit(x, k), |x|)
  }

  lemma {:induction false} RegisterHolds(t: Word, x: Bytes)
    requires |t| <= 8 * |x|
    ensures IsRegister(Register(t, x), x, |t|) && Top(Register(t, x), |t|) == t
  {
    var bits := (k: nat) => if k < |t| then t[k] else k < 8 * |x| && Bit(x, k);
    forall k: nat | k < 8 * |x| ensures Bit(Register(t, x), k) <==> bits(k) {
      BytesFromAt(bits, |x|, k);
    }
    assert Top(Register(t, x), |t|) == t;
  }

  /** Registers with the same first bits are the same. */
  lemma {:induction false} TopDecides(g: Bytes, h: Bytes, x: Bytes, n: nat)
    requires n <= 8 * |x| && IsRegister(g, x, n) && IsRegister(h, x, n)
    ensures g == h <==> Top(g, n) == Top(h, n)
  {
    if Top(g, n) == Top(h, n) {
      forall k | 0 <= k < 8 * |x| ensures Bit(g, k) <==> Bit(h, k) {
        assert k < n ==> Top(g, n)[k] == Top(h, n)[k];
      }
      SameBytes(g, h);
    }
  }

  /** Different first bits decide a comparison, whatever follows. */
  lemma {:induction false} TopCompares(g: Bytes, h: Bytes, n: nat)
    requires |g| == |h| && n <= 8 * |g| && Top(g, n) != Top(h, n)
    ensures Less(Top(g, n), Top(h, n)) ==> Compare(g, h) < 0
    ensures Less(Top(h, n), Top(g, n)) ==> Compare(g, h) > 0
  {
    var k := FirstBit(Top(g, n), Top(h, n));
    forall j | 0 <= j < k ensures Bit(g, j) <==> Bit(h, j) {
      assert Top(g, n)[j] == Top(h, n)[j];
    }
    OneWay(Top(g, n), Top(h, n));
    if Bit(h, k) {
      assert Top(h, n)[k] && Less(Top(g, n), Top(h, n));
      FirstBitDecides(g, h, k);
    } else {
      assert Top(g, n)[k] && Less(Top(h, n), Top(g, n));
      FirstBitDecides(h, g, k);
    }
  }

  // ---- what an operator lets through --------------------------------------------------------

  function ShapeOf(op: CmpOp): Shape {
    match op
    case Eq => Point
    case Neq => Rest
    case Lt | Lte => Down
    case Gt | Gte => Up
    case OtherOp => Point
  }

  predicate Holds(op: CmpOp, c: int) {
    CmpHolds(op, c) == Some(true)
  }

  /** The register with the first `n` bits of the value. */
  function Home(value: Bytes, x: Bytes, n: nat): (g: Bytes)
    requires n <= 8 * |value|
    ensures |g| == |x|
  {
    Register(Top(value, n), x)
  }

  lemma {:induction false} ShapeAccepts(op: CmpOp, c: int, homeToo: bool, t: Word, v: Word)
    requires |t| == |v|
    requires if t == v then homeToo == Holds(op, c) else (Less(t, v) ==> c < 0) && (Less(v, t) ==> c > 0)
    ensures Holds(op, c) <==> op != OtherOp && Accepts(ShapeOf(op), homeToo, t, v)
  {
    OneWay(t, v);
  }

  /** An operator accepts a register by its first bits; the bits after them matter at home only. */
  lemma {:induction false} OperatorAccepts(op: CmpOp, g: Bytes, value: Bytes, x: Bytes, n: nat)
    requires |value| == |x| && n <= 8 * |x| && IsRegister(g, x, n)
    ensures Holds(op, Compare(g, value)) <==>
      op != OtherOp && Accepts(ShapeOf(op), Holds(op, Compare(Home(value, x, n), value)), Top(g, n), Top(value, n))
  {
    var home, t, v := Home(value, x, n), Top(g, n), Top(value, n);
    RegisterHolds(v, x);
    TopDecides(g, home, x, n);
    if t != v {
      TopCompares(g, value, n);
    }
    ShapeAccepts(op, Compare(g, value), Holds(op, Compare(home, value)), t, v);
  }

  // ---- the masked comparison and the printed prefix --------------------------------------------

  /** Absent, a xor is all zero. */
  function XorOf(mask: Bytes, xor: Bytes): Bytes {
    if xor == [] then Zeros(|mask|) else xor
  }

  /** The masked comparison accepts these loaded bytes. */
  predicate Tests(a: Bytes, mask: Bytes, xor: Bytes, op: CmpOp, value: Bytes) {
    var reg := BitwiseBytes(a, Hex(mask), Hex(xor));
    reg.Some? && CmpTest(reg.value, op, Hex(value)) == Some(true)
  }

  /** A condition on the rule's own operands: the operator, the first `n` bits of the value and
      of the xor, and how the two compare after those bits. */
  predicate Faithful(op: CmpOp, x: Bytes, value: Bytes, n: nat)
    requires |x| == |value| && n <= 8 * |value|
  {
    op != OtherOp && Fits(ShapeOf(op), Holds(op, Compare(Home(value, x, n), value)), Top(value, n), Top(x, n))
  }

  lemma {:induction false} LoadedRegister(a: Bytes, mask: Bytes, x: Bytes, value: Bytes, n: nat)
    requires IsPrefixMask(mask, n) && |value| == |mask| == |x| && |a| >= |mask|
    ensures IsRegister(MaskBytes(a, mask, x), x, n)
    ensures Top(MaskBytes(a, mask, x), n) == Flip(Top(value, n), Top(x, n)) <==> InPrefix(a, value, n)
  {
    var g, target := MaskBytes(a, mask, x), Flip(Top(value, n), Top(x, n));
    forall k | 0 <= k < 8 * |mask| ensures Bit(g, k) <==> ((Bit(a, k) && k < n) != Bit(x, k)) {
      MaskedBit(a, mask, x, k);
      assert Bit(mask, k) <==> k < n;
    }
    if Top(g, n) == target {
      forall k | 0 <= k < n ensures Bit(a, k) <==> Bit(value, k) {
        assert Top(g, n)[k] == target[k];
      }
    }
  }

  /** Whatever agrees with the xor off the mask is what some loaded bytes become. */
  lemma {:induction false} RegisterIsLoaded(g: Bytes, mask: Bytes, x: Bytes) returns (a: Bytes)
    requires |g| == |mask| == |x|
    requires forall k :: 0 <= k < 8 * |x| && !Bit(mask, k) ==> (Bit(g, k) <==> Bit(x, k))
    ensures |a| == |mask| && MaskBytes(a, mask, x) == g
  {
    var bits := (k: nat) => k < 8 * |x| && |g| == |x| && Bit(g, k) != Bit(x, k);
    a := BytesFrom(bits, |x|);
    var h := MaskBytes(a, mask, x);
    forall k | 0 <= k < 8 * |x| ensures Bit(h, k) <==> Bit(g, k) {
      MaskedBit(a, mask, x, k);
      BytesFromAt(bits, |x|, k);
    }
    SameBytes(h, g);
  }

  lemma {:induction false} TestsAsRegister(a: Bytes, mask: Bytes, xor: Bytes, op: CmpOp, value: Bytes)
    requires mask != [] && |value| == |mask| && (xor == [] || |xor| == |mask|) && |a| >= |mask|
    ensures Tests(a, mask, xor, op, value) <==> Holds(op, Compare(MaskBytes(a, mask, XorOf(mask, xor)), value))
  {
    var g := MaskBytes(a, mask, XorOf(mask, xor));
    assert g[..|value|] == g;
  }

  /** Loaded bytes, by their first bits. */
  lemma {:induction false} TestsAsWord(a: Bytes, mask: Bytes, xor: Bytes, op: CmpOp, value: Bytes, n: nat)
    requires mask != [] && IsPrefixMask(mask, n) && |value| == |mask| && (xor == [] || |xor| == |mask|) && |a| >= |mask|
    ensures var x := XorOf(mask, xor);
      var g := MaskBytes(a, mask, x);
      && (InPrefix(a, value, n) <==> Top(g, n) == Flip(Top(value, n), Top(x, n)))
      && var homeToo := Holds(op, Compare(Home(value, x, n), value));
         Tests(a, mask, xor, op, value) <==> op != OtherOp && Accepts(ShapeOf(op), homeToo, Top(g, n), Top(value, n))
  {
    var x := XorOf(mask, xor);
    TestsAsRegister(a, mask, xor, op, value);
    LoadedRegister(a, mask, x, value, n);
    OperatorAccepts(op, MaskBytes(a, mask, x), value, x, n);
  }

  /** For these loaded bytes the comparison and the prefix agree. */
  predicate SameOn(a: Bytes, mask: Bytes, xor: Bytes, op: CmpOp, value: Bytes, n: nat)
    requires n <= 8 * |value| && |value| == |mask| <= |a|
  {
    Tests(a, mask, xor, op, value) <==> InPrefix(a, value, n)
  }

  /** The comparison tests the prefix on every field it can load. */
  ghost predicate TestsPrefix(mask: Bytes, xor: Bytes, op: CmpOp, value: Bytes, n: nat)
    requires n <= 8 * |value| && |value| == |mask|
  {
    forall a: Bytes :: |a| >= |mask| ==> SameOn(a, mask, xor, op, value, n)
  }

  /** Loaded bytes agree exactly when their word does. */
  lemma {:induction false} SameAsWord(a: Bytes, mask: Bytes, xor: Bytes, op: CmpOp, value: Bytes, n: nat)
    requires mask != [] && IsPrefixMask(mask, n) && |value| == |mask| && (xor == [] || |xor| == |mask|) && |a| >= |mask|
    ensures var x := XorOf(mask, xor);
      var t, v := Top(MaskBytes(a, mask, x), n), Top(value, n);
      var homeToo := Holds(op, Compare(Home(value, x, n), value));
      SameOn(a, mask, xor, op, value, n) <==>
        ((op != OtherOp && Accepts(ShapeOf(op), homeToo, t, v)) <==> t == Flip(v, Top(x, n)))
  {
    TestsAsWord(a, mask, xor, op, value, n);
  }

  lemma {:induction false} WordAgrees(t: Word, mask: Bytes, xor: Bytes, op: CmpOp, value: Bytes, n: nat)
    requires mask != [] && IsPrefixMask(mask, n) && |value| == |mask| && (xor == [] || |xor| == |mask|) && |t| == n
    requires TestsPrefix(mask, xor, op, value, n) && op != OtherOp
    ensures var x := XorOf(mask, xor);
      var homeToo := Holds(op, Compare(Home(value, x, n), value));
      Accepts(ShapeOf(op), homeToo, t, Top(value, n)) <==> t == Flip(Top(value, n), Top(x, n))
  {
    var x := XorOf(mask, xor);
    RegisterHolds(t, x);
    var a := RegisterIsLoaded(Register(t, x), mask, x);
    SameAsWord(a, mask, xor, op, value, n);
    assert SameOn(a, mask, xor, op, value, n);
  }

  lemma {:induction false} TestedIsFaithful(mask: Bytes, xor: Bytes, op: CmpOp, value: Bytes, n: nat)
    requires mask != [] && IsPrefixMask(mask, n) && |value| == |mask| && (xor == [] || |xor| == |mask|)
    requires TestsPrefix(mask, xor, op, value, n)
    ensures Faithful(op, XorOf(mask, xor), value, n)
  {
    var x := XorOf(mask, xor);
    var s, homeToo, v, w := ShapeOf(op), Holds(op, Compare(Home(value, x, n), value)), Top(value, n), Top(x, n);
    assert SameOn(value, mask, xor, op, value, n) && InPrefix(value, value, n);
    if op != OtherOp {
      forall t: Word | |t| == |v| ensures Accepts(s, homeToo, t, v) <==> t == Flip(v, w) {
        WordAgrees(t, mask, xor, op, value, n);
      }
      assert Agrees(s, homeToo, v, w);
      FitsIsExact(s, homeToo, v, w);
    }
  }

  lemma {:induction false} FaithfulIsTested(a: Bytes, mask: Bytes, xor: Bytes, op: CmpOp, value: Bytes, n: nat)
    requires mask != [] && IsPrefixMask(mask, n) && |value| == |mask| && (xor == [] || |xor| == |mask|) && |a| >= |mask|
    requires Faithful(op, XorOf(mask, xor), value, n)
    ensures SameOn(a, mask, xor, op, value, n)
  {
    var x := XorOf(mask, xor);
    var s, homeToo, v, w := ShapeOf(op), Holds(op, Compare(Home(value, x, n), value)), Top(value, n), Top(x, n);
    FitsIsExact(s, homeToo, v, w);
    var t := Top(MaskBytes(a, mask, x), n);
    assert Agrees(s, homeToo, v, w);
    assert Accepts(s, homeToo, t, v) <==> t == Flip(v, w);
    SameAsWord(a, mask, xor, op, value, n);
  }

  /** A masked comparison tests exactly the prefix printed for it, on every field it can load,
      if and only if its operator, xor and value fit. */
  lemma {:induction false} PrefixIsTested(mask: Bytes, xor: Bytes, op: CmpOp, value: Bytes, n: nat)
    requires mask != [] && IsPrefixMask(mask, n) && |value| == |mask| && (xor == [] || |xor| == |mask|)
    ensures TestsPrefix(mask, xor, op, value, n) <==> Faithful(op, XorOf(mask, xor), value, n)
  {
    if Faithful(op, XorOf(mask, xor), value, n) {
      forall a: Bytes | |a| >= |mask| ensures SameOn(a, mask, xor, op, value, n) {
        FaithfulIsTested(a, mask, xor, op, value, n);
      }
    }
    if TestsPrefix(mask, xor, op, value, n) {
      TestedIsFaithful(mask, xor, op, value, n);
    }
  }

  /** With no xor, home is the value cut after its first bits. */
  lemma {:induction false} HomeWithoutXor(value: Bytes, n: nat)
    requires n <= 8 * |value|
    ensures Top(Zeros(|value|), n) == Zero(n)
    ensures Compare(Home(value, Zeros(|value|), n), value) == 0 <==> forall k :: n <= k < 8 * |value| ==> !Bit(value, k)
  {
    var x := Zeros(|value|);
    var home := Home(value, x, n);
    forall k | 0 <= k < 8 * |value| ensures !Bit(x, k) {
      ZeroBit(k % 8);
    }
    RegisterHolds(Top(value, n), x);
    CompareEqual(home, value);
    forall k | 0 <= k < n ensures Bit(home, k) <==> Bit(value, k) {
      assert Top(home, n)[k] == Top(value, n)[k];
    }
    if forall k :: n <= k < 8 * |value| ==> !Bit(value, k) {
      SameBytes(home, value);
    }
  }

  /** With no xor, an equality tests the printed prefix exactly when the value has no bit after
      it, and a negation only when the prefix is empty and the value is not zero. */
  lemma {:induction false} WithoutXor(value: Bytes, n: nat)
    requires n <= 8 * |value|
    ensures Faithful(Eq, Zeros(|value|), value, n) <==> forall k :: n <= k < 8 * |value| ==> !Bit(value, k)
    ensures Faithful(Neq, Zeros(|value|), value, n) <==>
      n == 0 && exists k :: 0 <= k < 8 * |value| && Bit(value, k)
  {
    HomeWithoutXor(value, n);
    assert n == 1 ==> Zero(n)[0] != Full(1)[0];
  }

  // ---- comparisons without a mask ------------------------------------------------------------

  /** What the line says of an unmasked comparison: the field is the value, or is not. */
  predicate SaysEqual(a: Bytes, op: CmpOp, value: Bytes)
    requires |a| >= |value|
  {
    (a[..|value|] == value) != (op == Neq)
  }

  lemma {:induction false} OnesAreGreatest(a: Bytes)
    ensures Compare(a, Ones(|a|)) <= 0
  {
    if a != [] {
      assert Ones(|a|)[1..] == Ones(|a| - 1);
      OnesAreGreatest(a[1..]);
    }
  }

  lemma {:induction false} ZerosAreLeast(a: Bytes)
    ensures Compare(a, Zeros(|a|)) >= 0
  {
    if a != [] {
      assert Zeros(|a|)[1..] == Zeros(|a| - 1);
      ZerosAreLeast(a[1..]);
    }
  }

  /** An unmasked comparison is printed truly, on every field it can load, if and only if it is an
      equality or a negation, or the order leaves it no choice. */
  lemma {:induction false} ComparisonIsTested(op: CmpOp, value: Bytes)
    requires value != []
    ensures (forall a: Bytes :: |a| >= |value| ==>
      (CmpTest(a, op, Hex(value)) == Some(true) <==> SaysEqual(a, op, value)))
      <==> op == Eq || op == Neq || (op == Lte && value == Zeros(|value|)) || (op == Gte && value == Ones(|value|))
  {
    var n := |value|;
    forall a: Bytes | |a| >= n ensures Compare(a[..n], value) == 0 <==> a[..n] == value {
      CompareEqual(a[..n], value);
    }
    var zeros, ones := Zeros(n), Ones(n);
    assert value[..n] == value && zeros[..n] == zeros && ones[..n] == ones;
    ZerosAreLeast(value);
    OnesAreGreatest(value);
    CompareFlips(value, zeros);
    CompareFlips(value, ones);
    assert CmpTest(value, op, Hex(value)) == CmpHolds(op, 0);
    assert CmpTest(zeros, op, Hex(value)) == CmpHolds(op, Compare(zeros, value));
    assert CmpTest(ones, op, Hex(value)) == CmpHolds(op, Compare(ones, value));
    if op == Lte && value == zeros {
      forall a: Bytes | |a| >= n ensures Compare(a[..n], value) >= 0 {
        ZerosAreLeast(a[..n]);
      }
    }
    if op == Gte && value == ones {
      forall a: Bytes | |a| >= n ensures Compare(a[..n], value) <= 0 {
        OnesAreGreatest(a[..n]);
      }
    }
  }

  lemma {:induction false} ZeroBit(i: nat)
    requires i < 8
    ensures !ByteBit(0, i)
  {
  }
}
