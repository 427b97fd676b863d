/** Masked equalities, for any mask: when "field & mask == value" is what a masked comparison tests.
    A register holds free bits under the mask and the xor's bits off it; a comparison of such a
    register is decided by its masked bits in front of the first bit off the mask in which value
    and xor differ. */
module Masks {
  import opened Wrappers
  import opened Bytes
  import opened Bits
  import opened Words
  import opened Facts
  import opened Matcher
  import opened Prefixes

  // ---- words under a mask ----------------------------------------------------------------

  /** The bits under the mask, in order. */
  function Select(b: Word, m: Word): (s: Word)
    requires |b| == |m|
  {
    if m == [] then [] else (if m[0] then [b[0]] else []) + Select(b[1..], m[1..])
  }

  /** The word with these bits under the mask and those of `x` off it. */
  function Deposit(s: Word, x: Word, m: Word): (g: Word)
    requires |x| == |m| && |s| == |Select(x, m)|
    ensures |g| == |m|
  {
    if m == [] then []
    else if m[0] then [s[0]] + Deposit(s[1..], x[1..], m[1..])
    else [x[0]] + Deposit(s, x[1..], m[1..])
  }

  /** The two agree off the mask. */
  predicate SameOff(g: Word, x: Word, m: Word) {
    |g| == |x| == |m| && forall k :: 0 <= k < |m| && !m[k] ==> g[k] == x[k]
  }

  /** How many masked bits stand in front of the first bit off the mask in which `v` and `x`
      differ. */
  function Reach(v: Word, x: Word, m: Word): (n: nat)
    requires |v| == |x| == |m|
    ensures n <= |Select(v, m)|
  {
    if m == [] then 0
    else if m[0] then 1 + Reach(v[1..], x[1..], m[1..])
    else if v[0] == x[0] then Reach(v[1..], x[1..], m[1..])
    else 0
  }

  /** Lexicographic comparison. */
  function Order(g: Word, v: Word): int
    requires |g| == |v|
  {
    if g == [] then 0 else if g[0] == v[0] then Order(g[1..], v[1..]) else if v[0] then -1 else 1
  }

  /** How the register that has the value's bits under the mask compares with the value: by the
      first bit off the mask in which xor and value differ. */
  function Tie(v: Word, x: Word, m: Word): int
    requires |v| == |x| == |m|
  {
    if m == [] then 0
    else if m[0] || v[0] == x[0] then Tie(v[1..], x[1..], m[1..])
    else if v[0] then -1 else 1
  }

  lemma {:induction false} SameCount(a: Word, b: Word, m: Word)
    requires |a| == |b| == |m|
    ensures |Select(a, m)| == |Select(b, m)|
  {
    if m != [] {
      SameCount(a[1..], b[1..], m[1..]);
    }
  }

  lemma {:induction false} DepositSelects(s: Word, x: Word, m: Word)
    requires |x| == |m| && |s| == |Select(x, m)|
    ensures SameOff(Deposit(s, x, m), x, m) && Select(Deposit(s, x, m), m) == s
  {
    if m != [] {
      var g := Deposit(s, x, m);
      DepositSelects(if m[0] then s[1..] else s, x[1..], m[1..]);
      assert m == [m[0]] + m[1..] && x == [x[0]] + x[1..];
      if m[0] {
        assert s == [s[0]] + s[1..];
      }
    }
  }

  lemma {:induction false} OrderIsLess(g: Word, v: Word)
    requires |g| == |v|
    ensures Order(g, v) == 0 <==> g == v
    ensures Order(g, v) < 0 <==> Less(g, v)
    ensures Order(g, v) > 0 <==> Less(v, g)
  {
    if g == v {
      OneWay(g, v);
      OrderOfSame(g);
    } else {
      var k := FirstBit(g, v);
      OrderAt(g, v, k);
      OneWay(g, v);
      assert Less(g, v) || Less(v, g);
    }
  }

  lemma {:induction false} OrderOfSame(g: Word)
    ensures Order(g, g) == 0
  {
    if g != [] {
      OrderOfSame(g[1..]);
    }
  }

  lemma {:induction false} OrderAt(g: Word, v: Word, k: nat)
    requires Differ(g, v, k)
    ensures Order(g, v) == if v[k] then -1 else 1
  {
    if k > 0 {
      OrderAt(g[1..], v[1..], k - 1);
    }
  }

  /** A register compares with the value by its masked bits within reach, and by the tie when
      they are the value's. */
  lemma {:induction false} OrderWithinReach(g: Word, v: Word, x: Word, m: Word)
    requires |v| == |m| && SameOff(g, x, m) && |Select(g, m)| == |Select(v, m)|
    ensures var n := Reach(v, x, m);
      var s, home := Select(g, m)[..n], Select(v, m)[..n];
      Order(g, v) == if s == home then Tie(v, x, m) else Order(s, home)
    decreases |m|
  {
    if m != [] {
      SameCount(g[1..], v[1..], m[1..]);
      OrderWithinReach(g[1..], v[1..], x[1..], m[1..]);
      var n, r := Reach(v, x, m), Reach(v[1..], x[1..], m[1..]);
      var s, home := Select(g, m)[..n], Select(v, m)[..n];
      var s', home' := Select(g[1..], m[1..])[..r], Select(v[1..], m[1..])[..r];
      if m[0] {
        assert s == [g[0]] + s' && home == [v[0]] + home';
        assert s[1..] == s' && home[1..] == home';
      } else {
        assert g[0] == x[0];
        if v[0] != x[0] {
          assert s == [] && home == [];
        } else {
          assert [] + Select(g[1..], m[1..]) == Select(g, m) && [] + Select(v[1..], m[1..]) == Select(v, m);
          assert s == s' && home == home';
        }
      }
    }
  }

  // ---- which comparisons test the masked equality ------------------------------------------------

  /** The comparison, by the masked bits `s` of the register. */
  ghost predicate AcceptsMasked(shape: Shape, homeToo: bool, s: Word, home: Word, n: nat)
    requires n <= |s| == |home|
  {
    Accepts(shape, homeToo, s[..n], home[..n])
  }

  /** It accepts nothing at all. */
  predicate AcceptsNone(shape: Shape, homeToo: bool, home: Word) {
    && !homeToo
    && match shape
       case Point => true
       case Rest => home == []
       case Down => home == Zero(|home|)
       case Up => home == Full(|home|)
  }

  lemma {:induction false} NoneIsExact(shape: Shape, homeToo: bool, home: Word)
    ensures AcceptsNone(shape, homeToo, home) <==> forall t: Word :: |t| == |home| ==> !Accepts(shape, homeToo, t, home)
  {
    var n := |home|;
    ZeroIsLeast(home);
    FullIsGreatest(home);
    if forall t: Word :: |t| == n ==> !Accepts(shape, homeToo, t, home) {
      assert !Accepts(shape, homeToo, home, home);
      assert !Accepts(shape, homeToo, Zero(n), home) && !Accepts(shape, homeToo, Full(n), home);
      if n > 0 {
        ThreeWords(n);
      }
    }
    if AcceptsNone(shape, homeToo, home) {
      forall t: Word | |t| == n ensures !Accepts(shape, homeToo, t, home) {
        ZeroIsLeast(t);
        FullIsGreatest(t);
        OneWay(t, home);
      }
    }
  }

  /** The comparison accepts the masked bits `s` exactly when the equality holds of them; without
      a `possible` equality, when it accepts nothing. */
  ghost predicate AgreesMasked(shape: Shape, homeToo: bool, v: Word, x: Word, n: nat, possible: bool)
    requires n <= |v| == |x|
  {
    forall s: Word :: |s| == |v| ==> (AcceptsMasked(shape, homeToo, s, v, n) <==> possible && s == Flip(v, x))
  }

  /** The condition: an equality that cannot hold needs a test that never passes; one that can
      needs every masked bit within reach, and a comparison that singles out one word. */
  predicate FitsMasked(shape: Shape, homeToo: bool, v: Word, x: Word, n: nat, possible: bool)
    requires n <= |v| == |x|
  {
    if possible then n == |v| && Fits(shape, homeToo, v, x) else AcceptsNone(shape, homeToo, v[..n])
  }

  lemma {:induction false} ImpossibleFits(shape: Shape, homeToo: bool, v: Word, x: Word, n: nat)
    requires n <= |v| == |x|
    ensures AgreesMasked(shape, homeToo, v, x, n, false) <==> FitsMasked(shape, homeToo, v, x, n, false)
  {
    NoneIsExact(shape, homeToo, v[..n]);
    if AgreesMasked(shape, homeToo, v, x, n, false) {
      forall t: Word | |t| == n ensures !Accepts(shape, homeToo, t, v[..n]) {
        var s := t + v[n..];
        assert s[..n] == t;
        assert !AcceptsMasked(shape, homeToo, s, v, n);
      }
    }
    if FitsMasked(shape, homeToo, v, x, n, false) {
      forall s: Word | |s| == |v| ensures !AcceptsMasked(shape, homeToo, s, v, n) {
        assert |s[..n]| == n;
      }
    }
  }

  /** A masked bit out of reach could be either, so no single word is accepted. */
  lemma {:induction false} OutOfReach(shape: Shape, homeToo: bool, v: Word, x: Word, n: nat)
    requires n < |v| == |x|
    ensures !AgreesMasked(shape, homeToo, v, x, n, true)
  {
    var s := Flip(v, x);
    var other := s[n := !s[n]];
    assert other[n] != s[n] && other[..n] == s[..n];
    assert AcceptsMasked(shape, homeToo, s, v, n) == AcceptsMasked(shape, homeToo, other, v, n);
  }

  lemma {:induction false} AllInReach(shape: Shape, homeToo: bool, v: Word, x: Word)
    requires |v| == |x|
    ensures AgreesMasked(shape, homeToo, v, x, |v|, true) <==> Agrees(shape, homeToo, v, x)
  {
    forall s: Word | |s| == |v|
      ensures AcceptsMasked(shape, homeToo, s, v, |v|) <==> Accepts(shape, homeToo, s, v)
    {
      assert s[..|v|] == s && v[..|v|] == v;
    }
    if AgreesMasked(shape, homeToo, v, x, |v|, true) {
      forall s: Word | |s| == |v| ensures Accepts(shape, homeToo, s, v) <==> s == Flip(v, x) {
        assert AcceptsMasked(shape, homeToo, s, v, |v|) <==> s == Flip(v, x);
      }
    }
  }

  lemma {:induction false} MaskedFitsIsExact(shape: Shape, homeToo: bool, v: Word, x: Word, n: nat, possible: bool)
    requires n <= |v| == |x|
    ensures AgreesMasked(shape, homeToo, v, x, n, possible) <==> FitsMasked(shape, homeToo, v, x, n, possible)
  {
    if !possible {
      ImpossibleFits(shape, homeToo, v, x, n);
    } else if n < |v| {
      OutOfReach(shape, homeToo, v, x, n);
    } else {
      AllInReach(shape, homeToo, v, x);
      FitsIsExact(shape, homeToo, v, x);
    }
  }

  // ---- bits of words and bytes ------------------------------------------------------------------------

  predicate SameUnder(b: Word, c: Word, m: Word)
    requires |b| == |c| == |m|
  {
    forall k :: 0 <= k < |m| && m[k] ==> b[k] == c[k]
  }

  lemma {:induction false} SameUnderTail(b: Word, c: Word, m: Word)
    requires |b| == |c| == |m| > 0
    ensures SameUnder(b, c, m) <==> (m[0] ==> b[0] == c[0]) && SameUnder(b[1..], c[1..], m[1..])
  {
    if SameUnder(b, c, m) {
      forall k | 0 <= k < |m| - 1 && m[1..][k] ensures b[1..][k] == c[1..][k] {
        assert m[k + 1] && b[k + 1] == c[k + 1];
      }
    }
    if (m[0] ==> b[0] == c[0]) && SameUnder(b[1..], c[1..], m[1..]) {
      forall k | 0 <= k < |m| && m[k] ensures b[k] == c[k] {
        if k > 0 {
          assert m[1..][k - 1] && b[1..][k - 1] == c[1..][k - 1];
        }
      }
    }
  }

  lemma {:induction false} SelectSame(b: Word, c: Word, m: Word)
    requires |b| == |c| == |m|
    ensures Select(b, m) == Select(c, m) <==> SameUnder(b, c, m)
  {
    if m != [] {
      SameUnderTail(b, c, m);
      SelectSame(b[1..], c[1..], m[1..]);
      var s, t := Select(b[1..], m[1..]), Select(c[1..], m[1..]);
      if m[0] {
        assert ([b[0]] + s)[1..] == s && ([c[0]] + t)[1..] == t;
        assert ([b[0]] + s)[0] == b[0] && ([c[0]] + t)[0] == c[0];
      } else {
        assert [] + s == s && [] + t == t;
      }
    }
  }

  lemma {:induction false} FlipInParts(a: bool, b: bool, s: Word, t: Word)
    requires |s| == |t|
    ensures Flip([a] + s, [b] + t) == [a != b] + Flip(s, t)
  {
  }

  lemma {:induction false} SelectFlips(v: Word, x: Word, m: Word)
    requires |v| == |x| == |m|
    ensures |Select(v, m)| == |Select(x, m)| && Select(Flip(v, x), m) == Flip(Select(v, m), Select(x, m))
  {
    SameCount(v, x, m);
    if m != [] {
      SameCount(v[1..], x[1..], m[1..]);
      SelectFlips(v[1..], x[1..], m[1..]);
      assert Flip(v, x)[1..] == Flip(v[1..], x[1..]);
      var s, t := Select(v[1..], m[1..]), Select(x[1..], m[1..]);
      if m[0] {
        FlipInParts(v[0], x[0], s, t);
      } else {
        assert [] + s == s && [] + t == t && [] + Flip(s, t) == Flip(s, t);
      }
    }
  }

  /** All bits of a byte string. */
  function AsWord(b: Bytes): (t: Word)
    ensures |t| == 8 * |b| && forall k :: 0 <= k < |t| ==> t[k] == Bit(b, k)
  {
    Top(b, 8 * |b|)
  }

  lemma {:induction false} AsWordOrders(op: CmpOp, g: Bytes, h: Bytes)
    requires |g| == |h|
    ensures Holds(op, Compare(g, h)) <==> Holds(op, Order(AsWord(g), AsWord(h)))
  {
    CompareEqual(g, h);
    OrderIsLess(AsWord(g), AsWord(h));
    if AsWord(g) == AsWord(h) {
      forall k | 0 <= k < 8 * |g| ensures Bit(g, k) <==> Bit(h, k) {
        assert AsWord(g)[k] == AsWord(h)[k];
      }
      SameBytes(g, h);
    } else {
      TopCompares(g, h, 8 * |g|);
      OneWay(AsWord(g), AsWord(h));
    }
  }

  // ---- the masked comparison and the printed equality ------------------------------------------------

  /** "field & mask == value". */
  predicate EqualsMasked(a: Bytes, mask: Bytes, value: Bytes)
    requires |a| >= |mask|
  {
    MaskBytes(a, mask, Zeros(|mask|)) == value
  }

  /** The value has no bit off the mask, so that the equality can hold at all. */
  predicate Possible(value: Bytes, mask: Bytes) {
    |value| == |mask| && forall k :: 0 <= k < 8 * |mask| && Bit(value, k) ==> Bit(mask, k)
  }

  /** A condition on the rule's own operands: the operator, the bits of value and xor under the
      mask, and the first bit off the mask in which the two differ. */
  predicate FaithfulMask(op: CmpOp, mask: Bytes, x: Bytes, value: Bytes)
    requires |mask| == |x| == |value|
  {
    var v, w, m := AsWord(value), AsWord(x), AsWord(mask);
    SameCount(v, w, m);
    FitsMasked(ShapeOf(op), Holds(op, Tie(v, w, m)), Select(v, m), Select(w, m), Reach(v, w, m), Possible(value, mask))
  }

  /** The register of loaded bytes, and what the printed equality says of its bits. */
  lemma {:induction false} LoadedWord(a: Bytes, mask: Bytes, x: Bytes, value: Bytes)
    requires |a| >= |mask| == |x| == |value|
    ensures var g, v, w, m := AsWord(MaskBytes(a, mask, x)), AsWord(value), AsWord(x), AsWord(mask);
      && SameOff(g, w, m)
      && (EqualsMasked(a, mask, value) <==> Possible(value, mask) && Select(g, m) == Select(Flip(v, w), m))
  {
    var g, v, w, m := AsWord(MaskBytes(a, mask, x)), AsWord(value), AsWord(x), AsWord(mask);
    var plain := MaskBytes(a, mask, Zeros(|mask|));
    forall k | 0 <= k < 8 * |mask|
      ensures g[k] == ((Bit(a, k) && m[k]) != w[k])
      ensures Bit(plain, k) <==> Bit(a, k) && m[k]
    {
      MaskedBit(a, mask, x, k);
      MaskedBit(a, mask, Zeros(|mask|), k);
      ZeroBit(k % 8);
    }
    SelectSame(g, Flip(v, w), m);
    if EqualsMasked(a, mask, value) {
      forall k | 0 <= k < |m| && m[k] ensures g[k] == Flip(v, w)[k] {
        assert Bit(plain, k) <==> Bit(value, k);
      }
    }
    if Possible(value, mask) && Select(g, m) == Select(Flip(v, w), m) {
      forall k | 0 <= k < 8 * |mask| ensures Bit(plain, k) <==> Bit(value, k) {
        assert m[k] ==> g[k] == Flip(v, w)[k];
      }
      SameBytes(plain, value);
    }
  }

  /** Loaded bytes pass the comparison by the bits of their register under the mask. */
  lemma {:induction false} PassesByBits(g: Bytes, mask: Bytes, x: Bytes, op: CmpOp, value: Bytes)
    requires |g| == |mask| == |x| == |value| && SameOff(AsWord(g), AsWord(x), AsWord(mask))
    ensures var v, w, m := AsWord(value), AsWord(x), AsWord(mask);
      && |Select(AsWord(g), m)| == |Select(v, m)|
      && (Holds(op, Compare(g, value)) <==>
           AcceptsMasked(ShapeOf(op), Holds(op, Tie(v, w, m)), Select(AsWord(g), m), Select(v, m), Reach(v, w, m)))
  {
    var t, v, w, m := AsWord(g), AsWord(value), AsWord(x), AsWord(mask);
    var n := Reach(v, w, m);
    SameCount(t, v, m);
    AsWordOrders(op, g, value);
    OrderWithinReach(t, v, w, m);
    var s, home := Select(t, m)[..n], Select(v, m)[..n];
    OrderIsLess(s, home);
    ShapeAccepts(op, Order(t, v), Holds(op, Tie(v, w, m)), s, home);
  }

  /** For these loaded bytes the comparison and the printed equality agree. */
  predicate SameOnMask(a: Bytes, mask: Bytes, xor: Bytes, op: CmpOp, value: Bytes)
    requires |mask| <= |a|
  {
    Tests(a, mask, xor, op, value) <==> EqualsMasked(a, mask, value)
  }

  /** The comparison tests the printed equality on every field it can load. */
  ghost predicate TestsMask(mask: Bytes, xor: Bytes, op: CmpOp, value: Bytes) {
    forall a: Bytes :: |a| >= |mask| ==> SameOnMask(a, mask, xor, op, value)
  }

  /** Agreement on loaded bytes is agreement on the bits under the mask. */
  lemma {:induction false} SameByBits(a: Bytes, mask: Bytes, xor: Bytes, op: CmpOp, value: Bytes)
    requires mask != [] && |a| >= |mask| == |value| && (xor == [] || |xor| == |mask|)
    ensures var x := XorOf(mask, xor);
      var g, v, w, m := AsWord(MaskBytes(a, mask, x)), AsWord(value), AsWord(x), AsWord(mask);
      && |Select(g, m)| == |Select(v, m)| == |Select(w, m)|
      && (SameOnMask(a, mask, xor, op, value) <==>
           (AcceptsMasked(ShapeOf(op), Holds(op, Tie(v, w, m)), Select(g, m), Select(v, m), Reach(v, w, m)) <==>
            Possible(value, mask) && Select(g, m) == Flip(Select(v, m), Select(w, m))))
  {
    var x := XorOf(mask, xor);
    TestsAsRegister(a, mask, xor, op, value);
    LoadedWord(a, mask, x, value);
    PassesByBits(MaskBytes(a, mask, x), mask, x, op, value);
    SelectFlips(AsWord(value), AsWord(x), AsWord(mask));
  }

  /** Any bits under the mask are loaded by some field. */
  lemma {:induction false} BitsAreLoaded(s: Word, mask: Bytes, x: Bytes) returns (a: Bytes)
    requires |mask| == |x| && |s| == |Select(AsWord(x), AsWord(mask))|
    ensures |a| == |mask| && Select(AsWord(MaskBytes(a, mask, x)), AsWord(mask)) == s
  {
    var w, m := AsWord(x), AsWord(mask);
    var t := Deposit(s, w, m);
    DepositSelects(s, w, m);
    RegisterHolds(t, x);
    var g := Register(t, x);
    assert AsWord(g) == t;
    forall k | 0 <= k < 8 * |x| && !Bit(mask, k) ensures Bit(g, k) <==> Bit(x, k) {
      assert AsWord(g)[k] == w[k];
    }
    a := RegisterIsLoaded(g, mask, x);
  }

  /** On bits `s` under the mask, the comparison and the printed equality agree. */
  ghost predicate BitsAgree(s: Word, mask: Bytes, x: Bytes, op: CmpOp, value: Bytes)
    requires |mask| == |x| == |value| && |s| == |Select(AsWord(value), AsWord(mask))|
  {
    var v, w, m := AsWord(value), AsWord(x), AsWord(mask);
    SameCount(v, w, m);
    AcceptsMasked(ShapeOf(op), Holds(op, Tie(v, w, m)), s, Select(v, m), Reach(v, w, m)) <==>
      Possible(value, mask) && s == Flip(Select(v, m), Select(w, m))
  }

  lemma {:induction false} TestedBitsAgree(s: Word, mask: Bytes, xor: Bytes, op: CmpOp, value: Bytes)
    requires mask != [] && |value| == |mask| && (xor == [] || |xor| == |mask|)
    requires |s| == |Select(AsWord(value), AsWord(mask))| && TestsMask(mask, xor, op, value)
    ensures BitsAgree(s, mask, XorOf(mask, xor), op, value)
  {
    var x := XorOf(mask, xor);
    SameCount(AsWord(value), AsWord(x), AsWord(mask));
    var a := BitsAreLoaded(s, mask, x);
    SameByBits(a, mask, xor, op, value);
    assert SameOnMask(a, mask, xor, op, value);
  }

  /** All bits agree exactly when the operands fit. */
  lemma {:induction false} AllBitsAgree(mask: Bytes, x: Bytes, op: CmpOp, value: Bytes)
    requires |mask| == |x| == |value|
    ensures FaithfulMask(op, mask, x, value) <==>
      forall s: Word :: |s| == |Select(AsWord(value), AsWord(mask))| ==> BitsAgree(s, mask, x, op, value)
  {
    var v, w, m := AsWord(value), AsWord(x), AsWord(mask);
    var shape, homeToo, n := ShapeOf(op), Holds(op, Tie(v, w, m)), Reach(v, w, m);
    SameCount(v, w, m);
    var home, flips, possible := Select(v, m), Select(w, m), Possible(value, mask);
    MaskedFitsIsExact(shape, homeToo, home, flips, n, possible);
    forall s: Word | |s| == |home|
      ensures BitsAgree(s, mask, x, op, value) <==>
        (AcceptsMasked(shape, homeToo, s, home, n) <==> possible && s == Flip(home, flips))
    {
    }
    if AgreesMasked(shape, homeToo, home, flips, n, possible) {
      forall s: Word | |s| == |home| ensures BitsAgree(s, mask, x, op, value) {
        assert AcceptsMasked(shape, homeToo, s, home, n) <==> possible && s == Flip(home, flips);
      }
    }
    if forall s: Word :: |s| == |home| ==> BitsAgree(s, mask, x, op, value) {
      forall s: Word | |s| == |home|
        ensures AcceptsMasked(shape, homeToo, s, home, n) <==> possible && s == Flip(home, flips)
      {
        assert BitsAgree(s, mask, x, op, value);
      }
    }
  }

  /** A masked comparison tests exactly the equality printed for it, on every field it can load,
      if and only if its operator, mask, xor and value fit. */
  lemma {:induction false} MaskIsTested(mask: Bytes, xor: Bytes, op: CmpOp, value: Bytes)
    requires mask != [] && |value| == |mask| && (xor == [] || |xor| == |mask|)
    ensures TestsMask(mask, xor, op, value) <==> FaithfulMask(op, mask, XorOf(mask, xor), value)
  {
    var x := XorOf(mask, xor);
    AllBitsAgree(mask, x, op, value);
    if TestsMask(mask, xor, op, value) {
      forall s: Word | |s| == |Select(AsWord(value), AsWord(mask))| ensures BitsAgree(s, mask, x, op, value) {
        TestedBitsAgree(s, mask, xor, op, value);
      }
    }
    if FaithfulMask(op, mask, x, value) {
      forall a: Bytes | |a| >= |mask| ensures SameOnMask(a, mask, xor, op, value) {
        SameByBits(a, mask, xor, op, value);
        assert BitsAgree(Select(AsWord(MaskBytes(a, mask, x)), AsWord(mask)), mask, x, op, value);
      }
    }
  }

  // ---- equality and negation, spelled out ------------------------------------------------------------

  lemma {:induction false} TieOffMask(v: Word, x: Word, m: Word)
    requires |v| == |x| == |m|
    ensures Tie(v, x, m) == 0 <==> SameOff(v, x, m)
    ensures Tie(v, x, m) == 0 ==> Reach(v, x, m) == |Select(v, m)|
  {
    if m != [] {
      TieOffMask(v[1..], x[1..], m[1..]);
      if SameOff(v, x, m) {
        forall k | 0 <= k < |m| - 1 && !m[1..][k] ensures v[1..][k] == x[1..][k] {
          assert !m[k + 1];
        }
      }
      if (m[0] || v[0] == x[0]) && SameOff(v[1..], x[1..], m[1..]) {
        forall k | 0 <= k < |m| && !m[k] ensures v[k] == x[k] {
          if k > 0 {
            assert !m[1..][k - 1];
          }
        }
      }
    }
  }

  /** The xor is the value off the mask. */
  predicate XorIsValueOff(mask: Bytes, x: Bytes, value: Bytes)
    requires |mask| == |x| == |value|
  {
    forall k :: 0 <= k < 8 * |mask| && !Bit(mask, k) ==> (Bit(value, k) <==> Bit(x, k))
  }

  lemma {:induction false} SelectConstant(b: Word, m: Word, f: bool)
    requires |b| == |m|
    ensures (forall k :: 0 <= k < |m| && m[k] ==> b[k] == f) <==> Select(b, m) == seq(|Select(b, m)|, i => f)
  {
    var c: Word := seq(|m|, i => f);
    SelectSame(b, c, m);
    SameCount(b, c, m);
    SelectOfConstant(m, f);
  }

  lemma {:induction false} SelectOfConstant(m: Word, f: bool)
    ensures var c: Word := seq(|m|, i => f);
      Select(c, m) == seq(|Select(c, m)|, i => f)
  {
    var c: Word := seq(|m|, i => f);
    if m != [] {
      assert c[1..] == seq(|m| - 1, i => f);
      SelectOfConstant(m[1..], f);
    }
  }

  /** An equality is printed truly exactly when its xor is zero, or when it never passes and the
      printed equality never holds: the value has a bit off the mask, and differs from the xor
      there. */
  lemma {:induction false} EqualityUnderMask(mask: Bytes, x: Bytes, value: Bytes)
    requires |mask| == |x| == |value|
    ensures FaithfulMask(Eq, mask, x, value) <==>
      x == Zeros(|mask|) || (!Possible(value, mask) && !XorIsValueOff(mask, x, value))
  {
    var v, w, m := AsWord(value), AsWord(x), AsWord(mask);
    SameCount(v, w, m);
    TieOffMask(v, w, m);
    SelectConstant(w, m, false);
    assert Zero(|Select(w, m)|) == seq(|Select(w, m)|, i => false);
    XorOffMask(mask, x, value);
    ZeroBits(x);
  }

  lemma {:induction false} XorOffMask(mask: Bytes, x: Bytes, value: Bytes)
    requires |mask| == |x| == |value|
    ensures XorIsValueOff(mask, x, value) <==> SameOff(AsWord(value), AsWord(x), AsWord(mask))
  {
    var v, w, m := AsWord(value), AsWord(x), AsWord(mask);
    if SameOff(v, w, m) {
      forall k | 0 <= k < 8 * |mask| && !Bit(mask, k) ensures Bit(value, k) <==> Bit(x, k) {
        assert !m[k];
      }
    }
  }

  lemma {:induction false} ZeroBits(b: Bytes)
    ensures b == Zeros(|b|) <==> forall k :: 0 <= k < 8 * |b| ==> !Bit(b, k)
  {
    forall k | 0 <= k < 8 * |b| ensures !Bit(Zeros(|b|), k) {
      ZeroBit(k % 8);
    }
    if forall k :: 0 <= k < 8 * |b| ==> !Bit(b, k) {
      SameBytes(b, Zeros(|b|));
    }
  }

  /** A negation under a mask with some bit is printed truly only by accident: one mask bit, a
      xor that is the mask, and no bit of the value off it. */
  lemma {:induction false} NegationUnderMask(mask: Bytes, x: Bytes, value: Bytes)
    requires |mask| == |x| == |value| && mask != Zeros(|mask|)
    ensures FaithfulMask(Neq, mask, x, value) <==>
      Possible(value, mask) && |Select(AsWord(mask), AsWord(mask))| == 1 && x == mask
  {
    var v, w, m := AsWord(value), AsWord(x), AsWord(mask);
    SameCount(v, w, m);
    SameCount(m, w, m);
    TieOffMask(v, w, m);
    SelectConstant(w, m, true);
    assert Full(|Select(w, m)|) == seq(|Select(w, m)|, i => true);
    SomeMaskBit(mask);
    XorOffMask(mask, x, value);
    if x == mask && Possible(value, mask) {
      assert XorIsValueOff(mask, x, value);
    }
    if Possible(value, mask) && XorIsValueOff(mask, x, value) && forall k :: 0 <= k < |m| && m[k] ==> w[k] {
      forall k | 0 <= k < 8 * |mask| ensures Bit(x, k) <==> Bit(mask, k) {
        assert m[k] ==> w[k];
      }
      SameBytes(x, mask);
    }
  }

  lemma {:induction false} SomeMaskBit(mask: Bytes)
    requires mask != Zeros(|mask|)
    ensures |Select(AsWord(mask), AsWord(mask))| > 0
  {
    var m := AsWord(mask);
    ZeroBits(mask);
    var k :| 0 <= k < 8 * |mask| && Bit(mask, k);
    if Select(m, m) == [] {
      SelectConstant(m, m, false);
      assert m[k];
    }
  }
}
