/** Words of bits in lexicographic order, and which comparisons with one word single out another:
    the question behind printing a comparison as an equality. */
module Words {
  type Word = seq<bool>

  function Zero(n: nat): (t: Word)
    ensures |t| == n
  {
    seq(n, k => false)
  }

  function Full(n: nat): (t: Word)
    ensures |t| == n
  {
    seq(n, k => true)
  }

  /** Only the last bit is set. */
  function Last(n: nat): (t: Word)
    ensures |t| == n
  {
    seq(n, k => k + 1 == n)
  }

  /** Only the last bit is clear. */
  function Near(n: nat): (t: Word)
    ensures |t| == n
  {
    seq(n, k => k + 1 != n)
  }

  function Flip(v: Word, x: Word): (t: Word)
    requires |v| == |x|
    ensures |t| == |v|
  {
    seq(|v|, k requires 0 <= k < |v| => v[k] != x[k])
  }

  lemma {:induction false} FlipFacts(v: Word, x: Word)
    requires |v| == |x|
    ensures Flip(v, x) == v <==> x == Zero(|x|)
    ensures Flip(v, x) == Zero(|v|) <==> v == x
  {
    forall k | 0 <= k < |v| ensures Flip(v, x)[k] == (v[k] != x[k]) {}
    if Flip(v, x) == Zero(|v|) {
      forall k | 0 <= k < |v| ensures v[k] == x[k] {
        assert Flip(v, x)[k] == Zero(|v|)[k];
      }
    }
    if Flip(v, x) == v {
      forall k | 0 <= k < |v| ensures x[k] == Zero(|x|)[k] {
        assert Flip(v, x)[k] == v[k];
      }
    }
  }

  /** `k` is the first bit in which the two differ. */
  predicate Differ(t: Word, u: Word, k: nat) {
    |t| == |u| && k < |t| && t[k] != u[k] && forall j :: 0 <= j < k ==> t[j] == u[j]
  }

  ghost predicate Less(t: Word, u: Word) {
    exists k: nat :: Differ(t, u, k) && u[k]
  }

  lemma {:induction false} FirstBit(t: Word, u: Word) returns (k: nat)
    requires |t| == |u| && t != u
    ensures Differ(t, u, k) && Differ(u, t, k)
  {
    k := 0;
    while k < |t| && t[k] == u[k]
      invariant k <= |t| && forall j :: 0 <= j < k ==> t[j] == u[j]
    {
      k := k + 1;
    }
  }

  lemma {:induction false} OneWay(t: Word, u: Word)
    requires |t| == |u|
    ensures t == u ==> !Less(t, u)
    ensures t != u ==> Less(t, u) != Less(u, t)
  {
    if t != u {
      var k := FirstBit(t, u);
      if j: nat :| Differ(t, u, j) && u[j] {
        assert j == k;
      }
      if j: nat :| Differ(u, t, j) && t[j] {
        assert j == k;
      }
    }
  }

  lemma {:induction false} ThreeWords(n: nat)
    requires n > 0
    ensures Zero(n) != Full(n) && Zero(n) != Last(n)
    ensures n > 1 ==> Full(n) != Last(n)
  {
    assert Zero(n)[0] != Full(n)[0] && Zero(n)[n - 1] != Last(n)[n - 1];
    assert n > 1 ==> Full(n)[0] != Last(n)[0];
  }

  // ---- the ends of the order ------------------------------------------------------------

  lemma {:induction false} ZeroIsLeast(t: Word)
    ensures t == Zero(|t|) || Less(Zero(|t|), t)
  {
    if t != Zero(|t|) {
      var k := FirstBit(Zero(|t|), t);
    }
  }

  lemma {:induction false} FullIsGreatest(t: Word)
    ensures t == Full(|t|) || Less(t, Full(|t|))
  {
    if t != Full(|t|) {
      var k := FirstBit(t, Full(|t|));
    }
  }

  lemma {:induction false} LastIsNext(t: Word)
    requires |t| > 0
    ensures t == Last(|t|) || Less(Last(|t|), t) || t == Zero(|t|)
    ensures Less(t, Last(|t|)) <==> t == Zero(|t|)
  {
    var last := Last(|t|);
    if t != last {
      var k := FirstBit(t, last);
      OneWay(t, last);
      if last[k] {
        assert t == Zero(|t|);
      }
    }
    OneWay(t, last);
    assert Zero(|t|)[|t| - 1] != last[|t| - 1];
    ZeroIsLeast(last);
  }

  lemma {:induction false} NearIsNext(t: Word)
    requires |t| > 0
    ensures t == Near(|t|) || Less(t, Near(|t|)) || t == Full(|t|)
    ensures Less(Near(|t|), t) <==> t == Full(|t|)
  {
    var near := Near(|t|);
    if t != near {
      var k := FirstBit(t, near);
      OneWay(t, near);
      if !near[k] {
        assert t == Full(|t|);
      }
    }
    OneWay(t, near);
    assert Full(|t|)[|t| - 1] != near[|t| - 1];
    FullIsGreatest(near);
  }

  // ---- what a comparison with a word accepts ------------------------------------------------

  /** Home alone, the rest, or one side of home. */
  datatype Shape = Point | Rest | Down | Up

  ghost predicate Accepts(s: Shape, homeToo: bool, t: Word, home: Word) {
    if t == home then homeToo
    else
      match s
      case Point => false
      case Rest => true
      case Down => Less(t, home)
      case Up => Less(home, t)
  }

  /** The comparison with `v`, after a xor with `x`, accepts exactly the words that were `v`
      before the xor. */
  ghost predicate Agrees(s: Shape, homeToo: bool, v: Word, x: Word)
    requires |v| == |x|
  {
    forall t: Word :: |t| == |v| ==> (Accepts(s, homeToo, t, v) <==> t == Flip(v, x))
  }

  /** An equality needs a xor that leaves the word alone. A negation fits only words of no bits
      or of one. An ordered comparison fits only at an end of the order, or one step from it
      with a xor of the last bit. */
  predicate Fits(s: Shape, homeToo: bool, v: Word, x: Word)
    requires |v| == |x|
  {
    var n := |v|;
    match s
    case Point => homeToo && x == Zero(n)
    case Rest => (n == 0 && homeToo) || (n == 1 && !homeToo && x == Full(1))
    case Down => if homeToo then v == Zero(n) && x == Zero(n) else n >= 1 && v == Last(n) && x == Last(n)
    case Up => if homeToo then v == Full(n) && x == Zero(n) else n >= 1 && v == Near(n) && x == Last(n)
  }

  lemma {:induction false} PointFits(homeToo: bool, v: Word, x: Word)
    requires |v| == |x|
    ensures Agrees(Point, homeToo, v, x) <==> Fits(Point, homeToo, v, x)
  {
    FlipFacts(v, x);
    if Agrees(Point, homeToo, v, x) {
      assert Accepts(Point, homeToo, Flip(v, x), v);
    }
  }

  /** The rest of three words is more than one. */
  lemma {:induction false} RestIsSmall(homeToo: bool, v: Word, x: Word)
    requires |v| == |x| && Agrees(Rest, homeToo, v, x) && |v| > 0
    ensures |v| == 1 && !homeToo
  {
    var n := |v|;
    ThreeWords(n);
    assert Accepts(Rest, homeToo, Zero(n), v) <==> Zero(n) == Flip(v, x);
    assert Accepts(Rest, homeToo, Full(n), v) <==> Full(n) == Flip(v, x);
    assert Accepts(Rest, homeToo, Last(n), v) <==> Last(n) == Flip(v, x);
  }

  lemma {:induction false} RestFits(homeToo: bool, v: Word, x: Word)
    requires |v| == |x|
    ensures Agrees(Rest, homeToo, v, x) <==> Fits(Rest, homeToo, v, x)
  {
    if Agrees(Rest, homeToo, v, x) {
      if |v| > 0 {
        RestIsSmall(homeToo, v, x);
      }
      assert Accepts(Rest, homeToo, v, v) <==> v == Flip(v, x);
      assert |v| == 1 ==> Flip(v, x)[0] == (v[0] != x[0]);
    }
    if Fits(Rest, homeToo, v, x) {
      forall t: Word | |t| == |v| ensures Accepts(Rest, homeToo, t, v) <==> t == Flip(v, x) {
        if |v| == 0 {
          assert t == v && Flip(v, x) == v;
        } else {
          var u := Flip(v, x);
          assert x[0] && u[0] == !v[0];
          assert t == [t[0]] && v == [v[0]] && u == [u[0]];
          assert t == v <==> t[0] == v[0];
          assert t == u <==> t[0] == u[0];
        }
      }
    }
  }

  lemma {:induction false} DownFits(homeToo: bool, v: Word, x: Word)
    requires |v| == |x|
    ensures Agrees(Down, homeToo, v, x) <==> Fits(Down, homeToo, v, x)
  {
    var n, target := |v|, Flip(v, x);
    FlipFacts(v, x);
    if Agrees(Down, homeToo, v, x) {
      ZeroIsLeast(v);
      assert Accepts(Down, homeToo, Zero(n), v) <==> Zero(n) == target;
      assert Accepts(Down, homeToo, v, v) <==> v == target;
      assert Accepts(Down, homeToo, target, v);
      if !homeToo {
        ZeroIsLeast(target);
        OneWay(target, v);
        OneWay(Zero(n), target);
        assert n > 0;
        LastIsNext(v);
        assert Accepts(Down, homeToo, Last(n), v) <==> Last(n) == target;
        assert Last(n)[n - 1] != Zero(n)[n - 1];
      }
    }
    if Fits(Down, homeToo, v, x) {
      forall t: Word | |t| == n ensures Accepts(Down, homeToo, t, v) <==> t == target {
        ZeroIsLeast(t);
        OneWay(Zero(n), t);
        if !homeToo {
          LastIsNext(t);
          OneWay(t, v);
        }
      }
    }
  }

  lemma {:induction false} UpFits(homeToo: bool, v: Word, x: Word)
    requires |v| == |x|
    ensures Agrees(Up, homeToo, v, x) <==> Fits(Up, homeToo, v, x)
  {
    var n, target := |v|, Flip(v, x);
    FlipFacts(v, x);
    if Agrees(Up, homeToo, v, x) {
      FullIsGreatest(v);
      assert Accepts(Up, homeToo, Full(n), v) <==> Full(n) == target;
      assert Accepts(Up, homeToo, v, v) <==> v == target;
      assert Accepts(Up, homeToo, target, v);
      if !homeToo {
        FullIsGreatest(target);
        OneWay(v, target);
        OneWay(target, Full(n));
        assert n > 0;
        NearIsNext(v);
        assert Accepts(Up, homeToo, Near(n), v) <==> Near(n) == target;
        assert Near(n)[n - 1] != Full(n)[n - 1];
        assert target == Full(n) && v == Near(n);
        forall k | 0 <= k < n ensures x[k] == Last(n)[k] {
          assert target[k] == (v[k] != x[k]) && target[k] == Full(n)[k] && v[k] == Near(n)[k];
        }
      }
    }
    if Fits(Up, homeToo, v, x) {
      if !homeToo {
        forall k | 0 <= k < n ensures target[k] == Full(n)[k] {
          assert target[k] == (v[k] != x[k]);
        }
      }
      forall t: Word | |t| == n ensures Accepts(Up, homeToo, t, v) <==> t == target {
        FullIsGreatest(t);
        OneWay(t, Full(n));
        if !homeToo {
          NearIsNext(t);
          OneWay(v, t);
        }
      }
    }
  }

  /** The condition is exact, for every shape of comparison. */
  lemma {:induction false} FitsIsExact(s: Shape, homeToo: bool, v: Word, x: Word)
    requires |v| == |x|
    ensures Agrees(s, homeToo, v, x) <==> Fits(s, homeToo, v, x)
  {
    match s
    case Point => PointFits(homeToo, v, x);
    case Rest => RestFits(homeToo, v, x);
    case Down => DownFits(homeToo, v, x);
    case Up => UpFits(homeToo, v, x);
  }
}
