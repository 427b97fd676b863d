/** Insertion sort, standing for the library's stable sort: the result of a stable sort is
    determined by its input, and any order-preserving permutation is the same list once no
    two elements tie. */
module Sorting {

  predicate SortedBy<T(!new)>(xs: seq<T>, le: (T, T) -> bool) {
    forall i, j :: 0 <= i < j < |xs| ==> le(xs[i], xs[j])
  }

  ghost predicate TotalPreorder<T(!new)>(le: (T, T) -> bool) {
    && (forall x, y :: le(x, y) || le(y, x))
    && (forall x, y, z :: le(x, y) && le(y, z) ==> le(x, z))
  }

  function Insert<T>(x: T, xs: seq<T>, le: (T, T) -> bool): seq<T> {
    if xs == [] then [x]
    else if le(x, xs[0]) then [x] + xs
    else [xs[0]] + Insert(x, xs[1..], le)
  }

  function Sort<T>(xs: seq<T>, le: (T, T) -> bool): seq<T> {
    if xs == [] then [] else Insert(xs[0], Sort(xs[1..], le), le)
  }

  lemma {:induction false} InsertPermutes<T>(x: T, xs: seq<T>, le: (T, T) -> bool)
    ensures multiset(Insert(x, xs, le)) == multiset(xs) + multiset{x}
  {
    if xs != [] {
      assert xs == [xs[0]] + xs[1..];
      if !le(x, xs[0]) {
        InsertPermutes(x, xs[1..], le);
      }
    }
  }

  lemma {:induction false} SortPermutes<T>(xs: seq<T>, le: (T, T) -> bool)
    ensures multiset(Sort(xs, le)) == multiset(xs)
    ensures |Sort(xs, le)| == |xs|
  {
    if xs != [] {
      assert xs == [xs[0]] + xs[1..];
      SortPermutes(xs[1..], le);
      InsertPermutes(xs[0], Sort(xs[1..], le), le);
    }
    assert |multiset(Sort(xs, le))| == |Sort(xs, le)|;
    assert |multiset(xs)| == |xs|;
  }

  lemma {:induction false} InsertSorts<T(!new)>(x: T, xs: seq<T>, le: (T, T) -> bool)
    requires TotalPreorder(le) && SortedBy(xs, le)
    ensures SortedBy(Insert(x, xs, le), le)
  {
    if xs != [] && !le(x, xs[0]) {
      InsertSorts(x, xs[1..], le);
      InsertPermutes(x, xs[1..], le);
      var rest := Insert(x, xs[1..], le);
      forall j | 0 <= j < |rest| ensures le(xs[0], rest[j]) {
        assert rest[j] in multiset(rest);
        assert rest[j] == x || rest[j] in xs[1..];
      }
    }
  }

  lemma {:induction false} SortSorts<T(!new)>(xs: seq<T>, le: (T, T) -> bool)
    requires TotalPreorder(le)
    ensures SortedBy(Sort(xs, le), le)
  {
    if xs != [] {
      SortSorts(xs[1..], le);
      InsertSorts(xs[0], Sort(xs[1..], le), le);
    }
  }

  /** Sorted with no ties: every later element is strictly above every earlier one. */
  predicate Ascending<T(!new)>(xs: seq<T>, le: (T, T) -> bool) {
    forall i, j :: 0 <= i < j < |xs| ==> le(xs[i], xs[j]) && !le(xs[j], xs[i])
  }

  /** Two strictly ascending lists with the same elements are the same list. */
  lemma {:induction false} AscendingUnique<T(!new)>(xs: seq<T>, ys: seq<T>, le: (T, T) -> bool)
    requires Ascending(xs, le) && Ascending(ys, le)
    requires forall x :: x in xs <==> x in ys
    ensures xs == ys
  {
    if xs != [] {
      SameHead(xs, ys, le);
      AscendingTail(xs, ys, le);
      AscendingTail(ys, xs, le);
      AscendingUnique(xs[1..], ys[1..], le);
    } else if ys != [] {
      SameHead(ys, xs, le);
    }
  }

  lemma {:induction false} SameHead<T(!new)>(xs: seq<T>, ys: seq<T>, le: (T, T) -> bool)
    requires Ascending(xs, le) && Ascending(ys, le) && xs != []
    requires forall x :: x in xs <==> x in ys
    ensures ys != [] && xs[0] == ys[0]
  {
    assert xs[0] in ys;
    assert ys[0] in xs;
    var i :| 0 <= i < |ys| && ys[i] == xs[0];
    var j :| 0 <= j < |xs| && xs[j] == ys[0];
  }

  lemma {:induction false} AscendingTail<T(!new)>(xs: seq<T>, ys: seq<T>, le: (T, T) -> bool)
    requires xs != [] && ys != [] && xs[0] == ys[0]
    requires Ascending(xs, le)
    requires forall x :: x in xs ==> x in ys
    ensures forall x :: x in xs[1..] ==> x in ys[1..]
  {
    forall x | x in xs[1..] ensures x in ys[1..] {
      var k :| 0 <= k < |xs[1..]| && xs[1..][k] == x;
      assert xs[k + 1] in xs && !le(xs[k + 1], xs[0]) && le(xs[0], xs[k + 1]);
      assert ys == [ys[0]] + ys[1..];
    }
  }

  // ---- concatenation ---------------------------------------------------------

  lemma {:induction false} ConcatAssociates<T>(a: seq<T>, b: seq<T>, c: seq<T>)
    ensures (a + b) + c == a + (b + c)
  {
  }

  lemma {:induction false} ConcatHead<T>(a: seq<T>, b: seq<T>)
    ensures a == [] ==> a + b == b
    ensures a != [] ==> a + b != [] && (a + b)[0] == a[0] && (a + b)[1..] == a[1..] + b
  {
  }

  // ---- lists with the same elements, counted --------------------------------

  lemma {:induction false} SameMembers<T>(xs: seq<T>, ys: seq<T>)
    requires multiset(xs) == multiset(ys)
    ensures |xs| == |ys|
    ensures forall x :: x in xs <==> x in ys
  {
    assert |multiset(xs)| == |xs| && |multiset(ys)| == |ys|;
    forall x | x in xs ensures x in ys {
      assert x in multiset(xs);
    }
    forall x | x in ys ensures x in xs {
      assert x in multiset(ys);
    }
  }

  lemma {:induction false} DropSameHead<T>(xs: seq<T>, ys: seq<T>)
    requires xs != [] && ys != [] && xs[0] == ys[0] && multiset(xs) == multiset(ys)
    ensures multiset(xs[1..]) == multiset(ys[1..])
  {
    assert xs == [xs[0]] + xs[1..];
    assert ys == [ys[0]] + ys[1..];
    assert multiset(xs) == multiset{xs[0]} + multiset(xs[1..]);
    assert multiset(ys) == multiset{ys[0]} + multiset(ys[1..]);
    forall x ensures multiset(xs[1..])[x] == multiset(ys[1..])[x] {
      assert multiset(xs)[x] == multiset(ys)[x];
    }
  }

  /** Two positions of a list put both their elements, counted separately, in its multiset. */
  lemma {:induction false} TwoPlaces<T>(s: seq<T>, i: nat, j: nat)
    requires i < j < |s|
    ensures multiset{s[i], s[j]} <= multiset(s)
  {
    assert s == s[..i] + [s[i]] + s[i + 1..j] + [s[j]] + s[j + 1..];
  }

  /** Without one occurrence of an element, the rest of the list holds the rest of the count. */
  lemma {:induction false} WithoutOne<T(!new)>(s: seq<T>, i: nat, b: T)
    requires i < |s| && multiset{s[i], b} <= multiset(s)
    ensures b in s[..i] + s[i + 1..]
  {
    var a, rest := s[i], s[..i] + s[i + 1..];
    assert s == s[..i] + [a] + s[i + 1..];
    assert multiset(s) == multiset(rest) + multiset{a};
    assert multiset{a, b}[b] <= multiset(s)[b];
    assert multiset(rest)[b] > 0;
  }

  /** Two elements counted together sit at two different positions. */
  lemma {:induction false} TwoPositions<T(!new)>(s: seq<T>, a: T, b: T) returns (i: nat, j: nat)
    requires multiset{a, b} <= multiset(s)
    ensures i < j < |s| && ((s[i] == a && s[j] == b) || (s[i] == b && s[j] == a))
  {
    assert multiset{a, b}[a] > 0 && a in multiset(s);
    i :| 0 <= i < |s| && s[i] == a;
    WithoutOne(s, i, b);
    var rest := s[..i] + s[i + 1..];
    var k :| 0 <= k < |rest| && rest[k] == b;
    j := if k < i then k else k + 1;
    if j < i {
      i, j := j, i;
    }
  }

  /** No two positions satisfy a symmetric relation. */
  ghost predicate Apart<T(!new)>(s: seq<T>, same: (T, T) -> bool) {
    forall i, j :: 0 <= i < j < |s| ==> !same(s[i], s[j])
  }

  lemma {:induction false} ApartIsOrderFree<T(!new)>(s: seq<T>, t: seq<T>, same: (T, T) -> bool)
    requires multiset(s) == multiset(t) && Apart(s, same)
    requires forall x, y :: same(x, y) ==> same(y, x)
    ensures Apart(t, same)
  {
    forall k, l | 0 <= k < l < |t| ensures !same(t[k], t[l]) {
      TwoPlaces(t, k, l);
      var i, j := TwoPositions(s, t[k], t[l]);
    }
  }
}
