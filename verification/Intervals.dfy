/** What the interval sweep decides: for any arrangement of distinct bounds, and for every
    list of intervals in the encoding the kernel returns. */
module Intervals {
  import opened Wrappers
  import opened Bytes
  import opened Sorting
  import opened Sets

  lemma {:induction false} BoundLeIsTotal()
    ensures TotalPreorder(BoundLe)
  {
    forall x: Bound, y: Bound ensures BoundLe(x, y) || BoundLe(y, x) {
      CompareFlips(x.key, y.key);
    }
    forall x: Bound, y: Bound, z: Bound | BoundLe(x, y) && BoundLe(y, z) ensures BoundLe(x, z) {
      CompareTransitive(x.key, y.key, z.key);
    }
  }

  // ---- the sweep over a sorted list ------------------------------------------

  predicate AllAboveFrom(bs: seq<Bound>, v: Bytes, i: nat) {
    forall j :: i <= j < |bs| ==> Compare(v, bs[j].key) < 0
  }

  /** The greatest bound at or below `v` in a sorted list is a start. */
  predicate OpenAt(bs: seq<Bound>, v: Bytes) {
    exists i :: 0 <= i < |bs| && !bs[i].end && Compare(v, bs[i].key) >= 0 && AllAboveFrom(bs, v, i + 1)
  }

  predicate StartsMeet(bs: seq<Bound>) {
    exists i :: 0 <= i < |bs| - 1 && !bs[i].end && !bs[i + 1].end
  }

  /** The list a sweep in progress still stands for. */
  function Pending(bs: seq<Bound>, start: Option<Bytes>): seq<Bound> {
    (if start.Some? then [Bound(start.value, false)] else []) + bs
  }

  lemma {:induction false} OpenAtDrop(b: Bound, bs: seq<Bound>, v: Bytes)
    ensures OpenAt([b] + bs, v) <==>
      OpenAt(bs, v) || (!b.end && Compare(v, b.key) >= 0 && AllAboveFrom(bs, v, 0))
  {
    var all := [b] + bs;
    forall i: nat ensures AllAboveFrom(all, v, i + 1) <==> AllAboveFrom(bs, v, i) {
      forall j | i <= j < |bs| ensures bs[j] == all[j + 1] {}
      forall j | i + 1 <= j < |all| ensures all[j] == bs[j - 1] {}
    }
    if OpenAt(bs, v) {
      var i :| 0 <= i < |bs| && !bs[i].end && Compare(v, bs[i].key) >= 0 && AllAboveFrom(bs, v, i + 1);
      assert all[i + 1] == bs[i] && AllAboveFrom(all, v, i + 1 + 1);
    }
    if OpenAt(all, v) {
      var i :| 0 <= i < |all| && !all[i].end && Compare(v, all[i].key) >= 0 && AllAboveFrom(all, v, i + 1);
      if i > 0 {
        assert bs[i - 1] == all[i] && AllAboveFrom(bs, v, i - 1 + 1);
      }
    }
    if !b.end && Compare(v, b.key) >= 0 && AllAboveFrom(bs, v, 0) {
      assert all[0] == b && AllAboveFrom(all, v, 0 + 1);
    }
  }

  lemma {:induction false} StartsMeetDrop(b: Bound, bs: seq<Bound>)
    ensures StartsMeet([b] + bs) <==> StartsMeet(bs) || (bs != [] && !b.end && !bs[0].end)
  {
    var all := [b] + bs;
    if StartsMeet(bs) {
      var i :| 0 <= i < |bs| - 1 && !bs[i].end && !bs[i + 1].end;
      assert !all[i + 1].end && !all[i + 1 + 1].end;
    }
    if StartsMeet(all) {
      var i :| 0 <= i < |all| - 1 && !all[i].end && !all[i + 1].end;
      if i > 0 {
        assert !bs[i - 1].end && !bs[i - 1 + 1].end;
      }
    }
    if bs != [] && !b.end && !bs[0].end {
      assert !all[0].end && !all[0 + 1].end;
    }
  }

  lemma {:induction false} PendingStart(bs: seq<Bound>)
    requires bs != [] && !bs[0].end
    ensures Pending(bs[1..], Some(bs[0].key)) == bs
  {
    assert Bound(bs[0].key, false) == bs[0];
    assert bs == [bs[0]] + bs[1..];
  }

  lemma {:induction false} EndFirst(bs: seq<Bound>, v: Bytes)
    requires bs != [] && bs[0].end
    ensures OpenAt(bs, v) <==> OpenAt(bs[1..], v)
    ensures StartsMeet(bs) <==> StartsMeet(bs[1..])
  {
    assert bs == [bs[0]] + bs[1..];
    OpenAtDrop(bs[0], bs[1..], v);
    StartsMeetDrop(bs[0], bs[1..]);
  }

  /** One pass answers exactly: refused when two starts meet, and otherwise whether the
      greatest bound at or below the value is a start. */
  lemma {:induction false} SweepDecides(bs: seq<Bound>, v: Bytes, start: Option<Bytes>, member: bool)
    requires SortedBy(Pending(bs, start), BoundLe)
    ensures Sweep(bs, v, start, member) ==
      if StartsMeet(Pending(bs, start)) then None else Some(member || OpenAt(Pending(bs, start), v))
    decreases |bs|
  {
    assert Pending(bs, None) == bs;
    if bs == [] {
      if start.Some? {
        assert Pending(bs, start) == [Bound(start.value, false)] + [];
        OpenAtDrop(Bound(start.value, false), [], v);
      }
    } else if !bs[0].end && start.Some? {
      StartsMeetDrop(Bound(start.value, false), bs);
    } else if !bs[0].end {
      PendingStart(bs);
      SweepDecides(bs[1..], v, Some(bs[0].key), member);
    } else if start.None? {
      EndFirst(bs, v);
      assert Pending(bs[1..], None) == bs[1..];
      SweepDecides(bs[1..], v, None, member);
    } else {
      SweepCloses(bs, v, start.value);
      SortedRest(bs, start.value);
      assert Pending(bs[1..], None) == bs[1..];
      SweepDecides(bs[1..], v, None, member || (Compare(v, start.value) >= 0 && Compare(v, bs[0].key) < 0));
    }
  }

  lemma {:induction false} SortedRest(bs: seq<Bound>, start: Bytes)
    requires bs != [] && SortedBy(Pending(bs, Some(start)), BoundLe)
    ensures SortedBy(Pending(bs[1..], None), BoundLe)
  {
    forall i, j | 0 <= i < j < |bs[1..]| ensures BoundLe(bs[1..][i], bs[1..][j]) {
      var all := Pending(bs, Some(start));
      assert all[i + 2] == bs[1..][i] && all[j + 2] == bs[1..][j];
    }
  }

  /** Closing the open interval with an end accounts for exactly that interval. */
  lemma {:induction false} SweepCloses(bs: seq<Bound>, v: Bytes, start: Bytes)
    requires bs != [] && bs[0].end && SortedBy(Pending(bs, Some(start)), BoundLe)
    ensures StartsMeet(Pending(bs, Some(start))) <==> StartsMeet(bs[1..])
    ensures OpenAt(Pending(bs, Some(start)), v) <==>
      (Compare(v, start) >= 0 && Compare(v, bs[0].key) < 0) || OpenAt(bs[1..], v)
  {
    var all, open := Pending(bs, Some(start)), Bound(start, false);
    assert all == [open] + bs && bs == [bs[0]] + bs[1..];
    StartsMeetDrop(open, bs);
    StartsMeetDrop(bs[0], bs[1..]);
    OpenAtDrop(open, bs, v);
    OpenAtDrop(bs[0], bs[1..], v);
    if Compare(v, bs[0].key) < 0 {
      forall j | 0 <= j < |bs| ensures Compare(v, bs[j].key) < 0 {
        BelowFirst(bs, v, j, all);
      }
      assert AllAboveFrom(bs, v, 0);
    }
  }

  lemma {:induction false} BelowFirst(bs: seq<Bound>, v: Bytes, j: nat, all: seq<Bound>)
    requires j < |bs| && |all| == |bs| + 1 && all[1..] == bs && SortedBy(all, BoundLe)
    requires Compare(v, bs[0].key) < 0
    ensures Compare(v, bs[j].key) < 0
  {
    assert all[1] == bs[0] && all[j + 1] == bs[j];
    if j > 0 {
      assert BoundLe(all[1], all[j + 1]);
      StrictThenLe(v, bs[0].key, bs[j].key);
    }
  }

  lemma {:induction false} StrictThenLe(a: Bytes, b: Bytes, c: Bytes)
    requires Compare(a, b) < 0 && Compare(b, c) <= 0
    ensures Compare(a, c) < 0
  {
    CompareTransitive(a, b, c);
    if Compare(a, c) == 0 {
      CompareEqual(a, c);
      CompareFlips(a, b);
    }
  }

  // ---- any arrangement of distinct bounds ------------------------------------

  ghost predicate DistinctKeys(bs: seq<Bound>) {
    forall i, j :: 0 <= i < j < |bs| ==> bs[i].key != bs[j].key
  }

  predicate GreatestAtOrBelow(bs: seq<Bound>, v: Bytes, b: Bound) {
    && b in bs
    && Compare(v, b.key) >= 0
    && forall c :: c in bs && Compare(v, c.key) >= 0 ==> Compare(c.key, b.key) <= 0
  }

  /** Among the elements themselves: the greatest bound at or below `v` is a start. */
  predicate GreatestBelowIsStart(bs: seq<Bound>, v: Bytes) {
    exists b :: b in bs && !b.end && GreatestAtOrBelow(bs, v, b)
  }

  /** Two starts with no bound between them. */
  predicate Neighbours(bs: seq<Bound>, a: Bound, b: Bound) {
    && a in bs && b in bs && !a.end && !b.end && Compare(a.key, b.key) < 0
    && forall c :: c in bs ==> Compare(c.key, a.key) <= 0 || Compare(c.key, b.key) >= 0
  }

  predicate NeighbourStarts(bs: seq<Bound>) {
    exists a, b :: a in bs && b in bs && Neighbours(bs, a, b)
  }

  ghost predicate StrictKeys(s: seq<Bound>) {
    forall i, j :: 0 <= i < j < |s| ==> Compare(s[i].key, s[j].key) < 0
  }

  lemma {:induction false} StrictKeysOrder(s: seq<Bound>, i: nat, j: nat)
    requires StrictKeys(s) && i < |s| && j < |s|
    ensures Compare(s[i].key, s[j].key) <= 0 <==> i <= j
  {
    CompareFlips(s[i].key, s[j].key);
    CompareEqual(s[i].key, s[j].key);
  }

  lemma {:induction false} OpenAtOfElements(s: seq<Bound>, v: Bytes)
    requires StrictKeys(s)
    ensures OpenAt(s, v) <==> GreatestBelowIsStart(s, v)
  {
    if OpenAt(s, v) {
      var i :| 0 <= i < |s| && !s[i].end && Compare(v, s[i].key) >= 0 && AllAboveFrom(s, v, i + 1);
      forall c | c in s && Compare(v, c.key) >= 0 ensures Compare(c.key, s[i].key) <= 0 {
        var k :| 0 <= k < |s| && s[k] == c;
        StrictKeysOrder(s, k, i);
      }
      assert s[i] in s && GreatestAtOrBelow(s, v, s[i]);
    }
    if GreatestBelowIsStart(s, v) {
      var b :| b in s && !b.end && GreatestAtOrBelow(s, v, b);
      var i :| 0 <= i < |s| && s[i] == b;
      forall j | i < j < |s| ensures Compare(v, s[j].key) < 0 {
        assert s[j] in s;
        StrictKeysOrder(s, j, i);
      }
      assert AllAboveFrom(s, v, i + 1);
    }
  }

  lemma {:induction false} StartsMeetIsNeighbours(s: seq<Bound>, i: nat)
    requires StrictKeys(s) && i < |s| - 1 && !s[i].end && !s[i + 1].end
    ensures NeighbourStarts(s)
  {
    forall c | c in s ensures Compare(c.key, s[i].key) <= 0 || Compare(c.key, s[i + 1].key) >= 0 {
      var k :| 0 <= k < |s| && s[k] == c;
      StrictKeysOrder(s, k, i);
      StrictKeysOrder(s, i + 1, k);
      CompareFlips(s[i + 1].key, c.key);
    }
    assert s[i] in s && s[i + 1] in s && Neighbours(s, s[i], s[i + 1]);
  }

  lemma {:induction false} StartsMeetOfElements(s: seq<Bound>)
    requires StrictKeys(s)
    ensures StartsMeet(s) <==> NeighbourStarts(s)
  {
    if StartsMeet(s) {
      var i :| 0 <= i < |s| - 1 && !s[i].end && !s[i + 1].end;
      StartsMeetIsNeighbours(s, i);
    }
    if NeighbourStarts(s) {
      var a, b :| a in s && b in s && Neighbours(s, a, b);
      var i :| 0 <= i < |s| && s[i] == a;
      var j :| 0 <= j < |s| && s[j] == b;
      NothingBetween(s, i, j);
    }
  }

  lemma {:induction false} NothingBetween(s: seq<Bound>, i: nat, j: nat)
    requires StrictKeys(s) && i < |s| && j < |s| && Neighbours(s, s[i], s[j])
    ensures j == i + 1
  {
    StrictKeysOrder(s, i, j);
    StrictKeysOrder(s, j, i);
    CompareFlips(s[i].key, s[j].key);
    assert s[i + 1] in s;
    StrictKeysOrder(s, i + 1, i);
    StrictKeysOrder(s, j, i + 1);
    CompareFlips(s[i + 1].key, s[j].key);
  }

  lemma {:induction false} SortIsStrict(bs: seq<Bound>)
    requires DistinctKeys(bs)
    ensures StrictKeys(Sort(bs, BoundLe))
    ensures forall b :: b in Sort(bs, BoundLe) <==> b in bs
  {
    var s, sameKey := Sort(bs, BoundLe), (a: Bound, b: Bound) => a.key == b.key;
    BoundLeIsTotal();
    SortSorts(bs, BoundLe);
    SortPermutes(bs, BoundLe);
    SameMembers(s, bs);
    assert Apart(bs, sameKey);
    ApartIsOrderFree(bs, s, sameKey);
    forall i, j | 0 <= i < j < |s| ensures Compare(s[i].key, s[j].key) < 0 {
      assert BoundLe(s[i], s[j]) && !sameKey(s[i], s[j]);
      CompareEqual(s[i].key, s[j].key);
    }
  }

  lemma {:induction false} SweepOfElements(s: seq<Bound>, bs: seq<Bound>, v: Bytes)
    requires StrictKeys(s) && forall b :: b in s <==> b in bs
    ensures Sweep(s, v, None, false) ==
      if NeighbourStarts(bs) then None else Some(GreatestBelowIsStart(bs, v))
  {
    assert Pending(s, None) == s;
    SweepDecides(s, v, None, false);
    OpenAtOfElements(s, v);
    StartsMeetOfElements(s);
    SameElements(s, bs, v);
  }

  /** For equal-width distinct keys in any order, membership is exactly "the greatest bound at
      or below the value is a start", and the lookup is refused exactly when two starts are
      neighbours. */
  lemma {:induction false} IntervalDecision(bs: seq<Bound>, reg: Bytes)
    requires bs != [] && SameWidth(bs) && DistinctKeys(bs) && |reg| >= |bs[0].key|
    ensures IntervalMember(bs, reg).None? <==> NeighbourStarts(bs)
    ensures IntervalMember(bs, reg).Some? ==>
      (IntervalMember(bs, reg).value <==> GreatestBelowIsStart(bs, reg[..|bs[0].key|]))
  {
    SortIsStrict(bs);
    SweepOfElements(Sort(bs, BoundLe), bs, reg[..|bs[0].key|]);
  }

  lemma {:induction false} SameElements(s: seq<Bound>, bs: seq<Bound>, v: Bytes)
    requires forall b :: b in s <==> b in bs
    ensures GreatestBelowIsStart(s, v) <==> GreatestBelowIsStart(bs, v)
    ensures NeighbourStarts(s) <==> NeighbourStarts(bs)
  {
    forall b ensures GreatestAtOrBelow(s, v, b) <==> GreatestAtOrBelow(bs, v, b) {}
    forall a, b ensures Neighbours(s, a, b) <==> Neighbours(bs, a, b) {}
  }

  // ---- the kernel's encoding of a list of intervals ------------------------------

  /** An inclusive interval of keys. */
  datatype Interval = Interval(lo: Bytes, hi: Bytes) {
    predicate Has(n: nat) {
      Num(lo) <= n <= Num(hi)
    }
  }

  /** Non-empty intervals of `w`-byte keys in ascending order, more than `gap` apart. */
  predicate Ascend(ivs: seq<Interval>, w: nat, gap: nat) {
    && (forall i :: 0 <= i < |ivs| ==> |ivs[i].lo| == |ivs[i].hi| == w && Num(ivs[i].lo) <= Num(ivs[i].hi))
    && (forall i :: 0 <= i < |ivs| - 1 ==> Num(ivs[i].hi) + gap < Num(ivs[i + 1].lo))
  }

  predicate InUnion(ivs: seq<Interval>, n: nat) {
    exists i :: 0 <= i < |ivs| && ivs[i].Has(n)
  }

  /** A start, then an exclusive end unless the interval reaches the top of the key space. */
  function EncodeOne(iv: Interval): seq<Bound> {
    [Bound(iv.lo, false)] + (if Increment(iv.hi).Some? then [Bound(Increment(iv.hi).value, true)] else [])
  }

  function EncodeBody(ivs: seq<Interval>): seq<Bound> {
    if ivs == [] then [] else EncodeOne(ivs[0]) + EncodeBody(ivs[1..])
  }

  /** A zero end closes the region below the first interval, when there is one. */
  function Encode(ivs: seq<Interval>, w: nat): seq<Bound> {
    (if ivs != [] && ivs[0].lo != Zeros(w) then [Bound(Zeros(w), true)] else []) + EncodeBody(ivs)
  }

  lemma {:induction false} InUnionHead(ivs: seq<Interval>, n: nat)
    requires ivs != []
    ensures InUnion(ivs, n) <==> ivs[0].Has(n) || InUnion(ivs[1..], n)
  {
    if InUnion(ivs, n) {
      var i :| 0 <= i < |ivs| && ivs[i].Has(n);
      if i > 0 {
        assert ivs[1..][i - 1].Has(n);
      }
    }
    if InUnion(ivs[1..], n) {
      var i :| 0 <= i < |ivs[1..]| && ivs[1..][i].Has(n);
      assert ivs[i + 1].Has(n);
    }
  }

  /** An interval that reaches the top of the key space is the last one. */
  lemma {:induction false} TopIsLast(ivs: seq<Interval>, w: nat)
    requires ivs != [] && Ascend(ivs, w, 0) && Increment(ivs[0].hi).None?
    ensures |ivs| == 1
  {
    NumOfIncrement(ivs[0].hi);
    if |ivs| > 1 {
      NumBound(ivs[1].lo);
    }
  }

  lemma {:induction false} SweepOfOne(iv: Interval, rest: seq<Bound>, v: Bytes, member: bool)
    requires |iv.lo| == |iv.hi| == |v|
    requires Increment(iv.hi).Some? || rest == []
    ensures Sweep(EncodeOne(iv) + rest, v, None, member) == Sweep(rest, v, None, member || iv.Has(Num(v)))
  {
    var all := EncodeOne(iv) + rest;
    CompareIsNumeric(v, iv.lo);
    NumOfIncrement(iv.hi);
    NumBound(v);
    assert all[0] == Bound(iv.lo, false);
    if Increment(iv.hi).Some? {
      CompareIsNumeric(v, Increment(iv.hi).value);
      assert all[1..] == [Bound(Increment(iv.hi).value, true)] + rest;
      assert all[1..][1..] == rest;
    } else {
      assert all[1..] == [];
    }
  }

  lemma {:induction false} SweepOfBody(ivs: seq<Interval>, v: Bytes, member: bool)
    requires Ascend(ivs, |v|, 0)
    ensures Sweep(EncodeBody(ivs), v, None, member) == Some(member || InUnion(ivs, Num(v)))
  {
    if ivs != [] {
      InUnionHead(ivs, Num(v));
      if Increment(ivs[0].hi).None? {
        TopIsLast(ivs, |v|);
      }
      SweepOfOne(ivs[0], EncodeBody(ivs[1..]), v, member);
      SweepOfBody(ivs[1..], v, member || ivs[0].Has(Num(v)));
    }
  }

  lemma {:induction false} SweepSkipsEnd(b: Bound, bs: seq<Bound>, v: Bytes)
    requires b.end
    ensures Sweep([b] + bs, v, None, false) == Sweep(bs, v, None, false)
    ensures [] + bs == bs
  {
    assert ([b] + bs)[1..] == bs;
  }

  lemma {:induction false} SweepOfEncoding(ivs: seq<Interval>, v: Bytes)
    requires Ascend(ivs, |v|, 0)
    ensures Sweep(Encode(ivs, |v|), v, None, false) == Some(InUnion(ivs, Num(v)))
  {
    var body := EncodeBody(ivs);
    SweepOfBody(ivs, v, false);
    SweepSkipsEnd(Bound(Zeros(|v|), true), body, v);
  }

  // ---- arrangements of an encoding ---------------------------------------------

  /** `b` is a `w`-byte bound above `n`. */
  predicate Above(b: Bound, w: nat, n: nat) {
    |b.key| == w && Num(b.key) > n
  }

  /** Every bound of a body but its first start lies above that start, and the bounds of later
      intervals lie above the first interval. */
  lemma {:induction false} BodyAbove(ivs: seq<Interval>, w: nat, b: Bound)
    requires ivs != [] && Ascend(ivs, w, 0) && b in EncodeBody(ivs)
    ensures b == Bound(ivs[0].lo, false) || Above(b, w, Num(ivs[0].lo))
    ensures b in EncodeBody(ivs[1..]) || b.end ==> Above(b, w, Num(ivs[0].hi))
  {
    NumOfIncrement(ivs[0].hi);
    if b in EncodeBody(ivs[1..]) {
      BodyAbove(ivs[1..], w, b);
    }
  }

  /** In a sorted list, the element below all others comes first. */
  lemma {:induction false} LeastIsFirst(s: seq<Bound>, w: nat, x: Bound)
    requires SortedBy(s, BoundLe) && x in s && |x.key| == w
    requires forall b :: b in s && b != x ==> Above(b, w, Num(x.key))
    ensures s[0] == x
  {
    var i :| 0 <= i < |s| && s[i] == x;
    if i > 0 {
      assert BoundLe(s[0], s[i]);
      assert s[0] in s;
      if s[0] != x {
        CompareIsNumeric(s[0].key, x.key);
      }
    }
  }

  /** Matches the head of a sorted arrangement with the least element of the encoding. */
  lemma {:induction false} PeelHead(s: seq<Bound>, w: nat, x: Bound, rest: seq<Bound>)
    requires SortedBy(s, BoundLe) && !StartsMeet(s) && multiset(s) == multiset([x] + rest)
    requires |x.key| == w && forall b :: b in rest && b != x ==> Above(b, w, Num(x.key))
    ensures s == [x] + s[1..] && multiset(s[1..]) == multiset(rest)
    ensures SortedBy(s[1..], BoundLe) && !StartsMeet(s[1..])
    ensures !x.end && s[1..] != [] ==> s[1].end
  {
    SameMembers(s, [x] + rest);
    assert ([x] + rest)[0] == x;
    LeastIsFirst(s, w, x);
    assert s == [x] + s[1..];
    DropSameHead(s, [x] + rest);
    assert ([x] + rest)[1..] == rest;
    StartsMeetDrop(x, s[1..]);
  }

  /** As `PeelHead`, when the least key may be shared with a start but an end is due. */
  lemma {:induction false} PeelEnd(s: seq<Bound>, w: nat, x: Bound, rest: seq<Bound>)
    requires SortedBy(s, BoundLe) && !StartsMeet(s) && multiset(s) == multiset([x] + rest)
    requires s != [] && s[0].end && x.end && |x.key| == w
    requires forall b :: b in rest ==> |b.key| == w && (b.end ==> Num(b.key) > Num(x.key))
    ensures s == [x] + s[1..] && multiset(s[1..]) == multiset(rest)
    ensures SortedBy(s[1..], BoundLe) && !StartsMeet(s[1..])
  {
    SameMembers(s, [x] + rest);
    assert ([x] + rest)[0] == x;
    assert x in [x] + rest && x in s;
    var i :| 0 <= i < |s| && s[i] == x;
    assert s[0] in s;
    if s[0] != x {
      assert s[0] in rest;
      assert BoundLe(s[0], s[i]);
      CompareIsNumeric(s[0].key, x.key);
    }
    assert s == [x] + s[1..];
    DropSameHead(s, [x] + rest);
    assert ([x] + rest)[1..] == rest;
    StartsMeetDrop(x, s[1..]);
  }

  /** A sorted arrangement of a body in which no two starts meet is the body itself: an end
      that ties with the next start has to come first. */
  lemma {:induction false} SortedBodyIsBody(ivs: seq<Interval>, w: nat, s: seq<Bound>)
    requires Ascend(ivs, w, 0) && SortedBy(s, BoundLe) && !StartsMeet(s)
    requires multiset(s) == multiset(EncodeBody(ivs))
    ensures s == EncodeBody(ivs)
    decreases |ivs|, 1
  {
    if ivs == [] {
      SameMembers(s, []);
    } else {
      var body, start := EncodeBody(ivs), Bound(ivs[0].lo, false);
      assert body == [start] + body[1..];
      forall b | b in body[1..] && b != start ensures Above(b, w, Num(start.key)) {
        BodyAbove(ivs, w, b);
      }
      PeelHead(s, w, start, body[1..]);
      SortedAfterStart(ivs, w, s[1..]);
    }
  }

  lemma {:induction false} SortedAfterStart(ivs: seq<Interval>, w: nat, s: seq<Bound>)
    requires ivs != [] && Ascend(ivs, w, 0) && SortedBy(s, BoundLe) && !StartsMeet(s) && (s != [] ==> s[0].end)
    requires multiset(s) == multiset(EncodeBody(ivs)[1..])
    ensures s == EncodeBody(ivs)[1..]
    decreases |ivs|, 0
  {
    var after, rest := EncodeBody(ivs)[1..], EncodeBody(ivs[1..]);
    SameMembers(s, after);
    if Increment(ivs[0].hi).Some? {
      var end := Bound(Increment(ivs[0].hi).value, true);
      assert after == [end] + rest;
      EndsAbove(ivs, w);
      assert end in after;
      PeelEnd(s, w, end, rest);
      SortedBodyIsBody(ivs[1..], w, s[1..]);
    } else {
      TopIsLast(ivs, w);
      assert after == [];
    }
  }

  lemma {:induction false} EndsAbove(ivs: seq<Interval>, w: nat)
    requires ivs != [] && Ascend(ivs, w, 0) && Increment(ivs[0].hi).Some?
    ensures forall b :: b in EncodeBody(ivs[1..]) ==>
      |b.key| == w && (b.end ==> Num(b.key) > Num(Increment(ivs[0].hi).value))
  {
    NumOfIncrement(ivs[0].hi);
    forall b | b in EncodeBody(ivs[1..])
      ensures |b.key| == w && (b.end ==> Num(b.key) > Num(Increment(ivs[0].hi).value))
    {
      BodyAbove(ivs[1..], w, b);
    }
  }

  lemma {:induction false} ZeroBelowBody(ivs: seq<Interval>, w: nat, b: Bound)
    requires ivs != [] && Ascend(ivs, w, 0) && ivs[0].lo != Zeros(w) && b in EncodeBody(ivs)
    ensures Above(b, w, Num(Zeros(w)))
  {
    NumOfZeros(w);
    if Num(ivs[0].lo) == 0 {
      NumInjective(ivs[0].lo, Zeros(w));
    }
    BodyAbove(ivs, w, b);
  }

  lemma {:induction false} SortedArrangement(ivs: seq<Interval>, w: nat, s: seq<Bound>)
    requires Ascend(ivs, w, 0) && SortedBy(s, BoundLe) && !StartsMeet(s)
    requires multiset(s) == multiset(Encode(ivs, w))
    ensures s == Encode(ivs, w)
  {
    if ivs != [] && ivs[0].lo != Zeros(w) {
      forall b | b in EncodeBody(ivs) ensures Above(b, w, Num(Zeros(w))) {
        ZeroBelowBody(ivs, w, b);
      }
      PeelHead(s, w, Bound(Zeros(w), true), EncodeBody(ivs));
      SortedBodyIsBody(ivs, w, s[1..]);
    } else {
      assert Encode(ivs, w) == EncodeBody(ivs);
      SortedBodyIsBody(ivs, w, s);
    }
  }

  /** The sort does not say how it orders an end and a start with the same key, as touching
      intervals produce. Whatever it does, the sweep answers membership in the union or
      refuses. */
  lemma {:induction false} TouchingNeverWrong(ivs: seq<Interval>, v: Bytes, s: seq<Bound>)
    requires Ascend(ivs, |v|, 0) && SortedBy(s, BoundLe)
    requires multiset(s) == multiset(Encode(ivs, |v|))
    ensures Sweep(s, v, None, false) in {None, Some(InUnion(ivs, Num(v)))}
  {
    assert Pending(s, None) == s;
    SweepDecides(s, v, None, false);
    if !StartsMeet(s) {
      SortedArrangement(ivs, |v|, s);
      SweepOfEncoding(ivs, v);
    }
  }

  // ---- intervals that do not touch ----------------------------------------------

  lemma {:induction false} BodyAscends(ivs: seq<Interval>, w: nat)
    requires Ascend(ivs, w, 1)
    ensures StrictKeys(EncodeBody(ivs))
  {
    if ivs != [] {
      var one, rest := EncodeOne(ivs[0]), EncodeBody(ivs[1..]);
      BodyAscends(ivs[1..], w);
      NumOfIncrement(ivs[0].hi);
      if |one| == 2 {
        CompareIsNumeric(one[0].key, one[1].key);
        forall i, j | 0 <= i < |one| && 0 <= j < |rest| ensures Compare(one[i].key, rest[j].key) < 0 {
          BodyAbove(ivs[1..], w, rest[j]);
          CompareIsNumeric(one[i].key, rest[j].key);
        }
      } else {
        TopIsLast(ivs, w);
      }
      StrictConcat(one, rest);
    }
  }

  lemma {:induction false} StrictConcat(a: seq<Bound>, b: seq<Bound>)
    requires StrictKeys(a) && StrictKeys(b)
    requires forall i, j :: 0 <= i < |a| && 0 <= j < |b| ==> Compare(a[i].key, b[j].key) < 0
    ensures StrictKeys(a + b)
  {
  }

  lemma {:induction false} EncodeAscends(ivs: seq<Interval>, w: nat)
    requires Ascend(ivs, w, 1)
    ensures StrictKeys(Encode(ivs, w))
  {
    BodyAscends(ivs, w);
    if ivs != [] && ivs[0].lo != Zeros(w) {
      var zero, body := [Bound(Zeros(w), true)], EncodeBody(ivs);
      forall i, j | 0 <= i < |zero| && 0 <= j < |body| ensures Compare(zero[i].key, body[j].key) < 0 {
        ZeroBelowBody(ivs, w, body[j]);
        CompareIsNumeric(Zeros(w), body[j].key);
      }
      StrictConcat(zero, body);
    }
  }

  lemma {:induction false} EncodeWidth(ivs: seq<Interval>, w: nat, b: Bound)
    requires ivs != [] && Ascend(ivs, w, 0) && b in Encode(ivs, w)
    ensures |b.key| == w
  {
    if b in EncodeBody(ivs) {
      BodyAbove(ivs, w, b);
    }
  }

  lemma {:induction false} ArrangementKeepsKeys(xs: seq<Bound>, ys: seq<Bound>)
    requires multiset(xs) == multiset(ys) && StrictKeys(ys)
    ensures DistinctKeys(xs)
  {
    forall k, l | 0 <= k < l < |ys| ensures ys[k].key != ys[l].key {
      CompareEqual(ys[k].key, ys[l].key);
    }
    var sameKey := (a: Bound, b: Bound) => a.key == b.key;
    assert Apart(ys, sameKey);
    ApartIsOrderFree(ys, xs, sameKey);
    forall i, j | 0 <= i < j < |xs| ensures xs[i].key != xs[j].key {
      assert !sameKey(xs[i], xs[j]);
    }
  }

  lemma {:induction false} StrictIsAscending(s: seq<Bound>)
    requires StrictKeys(s)
    ensures Ascending(s, BoundLe)
  {
    forall i, j | 0 <= i < j < |s| ensures BoundLe(s[i], s[j]) && !BoundLe(s[j], s[i]) {
      CompareFlips(s[i].key, s[j].key);
    }
  }

  /** The kernel's encoding of intervals that do not touch, in any order the elements arrive,
      is never refused and means membership in their union. */
  lemma {:induction false} KernelEncodingMeansUnion(ivs: seq<Interval>, w: nat, elements: seq<Bound>, reg: Bytes)
    requires ivs != [] && Ascend(ivs, w, 1) && |reg| >= w
    requires multiset(elements) == multiset(Encode(ivs, w))
    ensures IntervalMember(elements, reg) == Some(InUnion(ivs, Num(reg[..w])))
  {
    var enc, s := Encode(ivs, w), Sort(elements, BoundLe);
    EncodeAscends(ivs, w);
    SameMembers(elements, enc);
    assert |EncodeOne(ivs[0])| >= 1;
    forall b | b in elements ensures |b.key| == w {
      EncodeWidth(ivs, w, b);
    }
    ArrangementKeepsKeys(elements, enc);
    SortIsStrict(elements);
    StrictIsAscending(s);
    StrictIsAscending(enc);
    AscendingUnique(s, enc, BoundLe);
    SweepOfEncoding(ivs, reg[..w]);
  }
}
