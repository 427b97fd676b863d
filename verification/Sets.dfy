/** Set lookups: flat sets of equal-width keys, and interval sets whose elements are bounds. */
module Sets {
  import opened Wrappers
  import opened Bytes
  import opened Facts
  import opened Sorting

  datatype Bound = Bound(key: Bytes, end: bool)

  /** No value, no key end, and a key that decodes. */
  predicate Readable(e: SetElement) {
    !e.hasVal && !e.hasKeyEnd && e.key.Hex?
  }

  function ReadBounds(es: seq<SetElement>): Option<seq<Bound>> {
    if forall e :: e in es ==> Readable(e) then
      Some(seq(|es|, i requires 0 <= i < |es| && Readable(es[i]) => Bound(es[i].key.bytes, es[i].intervalEnd)))
    else None
  }

  predicate SameWidth(bs: seq<Bound>) {
    forall b :: b in bs ==> |b.key| == |bs[0].key|
  }

  predicate BoundLe(a: Bound, b: Bound) {
    Compare(a.key, b.key) <= 0
  }

  /** The sweep over sorted bounds: `start` is the interval being open, `member` what has been
      found so far. Two starts with no end between them are refused. */
  function Sweep(bs: seq<Bound>, v: Bytes, start: Option<Bytes>, member: bool): Option<bool> {
    if bs == [] then Some(member || (start.Some? && Compare(v, start.value) >= 0))
    else if !bs[0].end then
      if start.Some? then None else Sweep(bs[1..], v, Some(bs[0].key), member)
    else if start.None? then Sweep(bs[1..], v, None, member)
    else Sweep(bs[1..], v, None, member || (Compare(v, start.value) >= 0 && Compare(v, bs[0].key) < 0))
  }

  function IntervalMember(bs: seq<Bound>, reg: Bytes): Option<bool> {
    if bs == [] || !SameWidth(bs) || |reg| < |bs[0].key| then None
    else Sweep(Sort(bs, BoundLe), reg[..|bs[0].key|], None, false)
  }

  function FlatMember(bs: seq<Bound>, reg: Bytes): Option<bool> {
    if bs == [] || !SameWidth(bs) || |reg| < |bs[0].key| then None
    else Some(exists b :: b in bs && b.key == reg[..|bs[0].key|])
  }

  predicate Names(e: Expr, s: NftSet)
    requires e.Lookup?
  {
    (e.set_ != "" && s.name == e.set_) || (e.set_ == "" && e.setId != 0 && s.id == e.setId)
  }

  function FindSet(e: Expr, sets: seq<NftSet>): Option<NftSet>
    requires e.Lookup?
  {
    if sets == [] then None else if Names(e, sets[0]) then Some(sets[0]) else FindSet(e, sets[1..])
  }

  /** Membership of a register in the set a lookup names; nothing when it cannot be told. */
  function LookupMatch(reg: Bytes, e: Expr, sets: seq<NftSet>): Option<bool>
    requires e.Lookup?
  {
    var s := FindSet(e, sets);
    if s.None? || s.value.isMap || s.value.concatenation || s.value.elements == [] then None
    else
      var bs := ReadBounds(s.value.elements);
      if bs.None? then None
      else
        var member := if s.value.interval then IntervalMember(bs.value, reg) else FlatMember(bs.value, reg);
        if member.None? then None else Some(member.value != e.invert)
  }

  // ---- the loops of the source ------------------------------------------------

  /** Collects the bounds, giving up at the first element that is not readable or not as wide
      as the first. */
  method CollectBounds(es: seq<SetElement>) returns (bs: Option<seq<Bound>>)
    ensures bs == if ReadBounds(es).Some? && SameWidth(ReadBounds(es).value) then ReadBounds(es) else None
  {
    var acc: seq<Bound> := [];
    for i := 0 to |es|
      invariant forall j :: 0 <= j < i ==> Readable(es[j])
      invariant |acc| == i && forall j :: 0 <= j < i ==> acc[j] == Bound(es[j].key.bytes, es[j].intervalEnd)
      invariant forall j :: 0 <= j < i ==> |acc[j].key| == |acc[0].key|
    {
      if !Readable(es[i]) {
        assert es[i] in es;
        return None;
      }
      var b := Bound(es[i].key.bytes, es[i].intervalEnd);
      if i > 0 && |b.key| != |acc[0].key| {
        if ReadBounds(es).Some? {
          assert ReadBounds(es).value[i] == b && ReadBounds(es).value[0] == acc[0];
          assert b in ReadBounds(es).value;
        }
        return None;
      }
      acc := acc + [b];
    }
    assert acc == ReadBounds(es).value;
    bs := Some(acc);
  }

  /** `intervalMatch`: sort the bounds, then one pass with the interval being open. */
  method IntervalScan(bs: seq<Bound>, reg: Bytes) returns (m: Option<bool>)
    requires bs != [] && SameWidth(bs)
    ensures m == IntervalMember(bs, reg)
  {
    var width := |bs[0].key|;
    if |reg| < width {
      return None;
    }
    var v := reg[..width];
    var sorted := Sort(bs, BoundLe);
    var start: Option<Bytes> := None;
    var member := false;
    for i := 0 to |sorted|
      invariant Sweep(sorted[i..], v, start, member) == Sweep(sorted, v, None, false)
    {
      var b := sorted[i];
      assert sorted[i..][1..] == sorted[i + 1..];
      if !b.end {
        if start.Some? {
          return None;
        }
        start := Some(b.key);
      } else if start.Some? {
        if Compare(v, start.value) >= 0 && Compare(v, b.key) < 0 {
          member := true;
        }
        start := None;
      }
    }
    if start.Some? && Compare(v, start.value) >= 0 {
      member := true;
    }
    m := Some(member);
  }

  /** `lookupMatch`, refusing everything that is neither a flat set nor an interval set. */
  method LookupScan(reg: Bytes, e: Expr, sets: seq<NftSet>) returns (m: Option<bool>)
    requires e.Lookup?
    ensures m == LookupMatch(reg, e, sets)
  {
    var s := FindSet(e, sets);
    if s.None? || s.value.isMap || s.value.concatenation || s.value.elements == [] {
      return None;
    }
    var bs := CollectBounds(s.value.elements);
    if bs.None? {
      return None;
    }
    var member := false;
    if s.value.interval {
      var r := IntervalScan(bs.value, reg);
      if r.None? {
        return None;
      }
      member := r.value;
    } else {
      var width := |bs.value[0].key|;
      if |reg| < width {
        return None;
      }
      for i := 0 to |bs.value|
        invariant !member && forall j :: 0 <= j < i ==> bs.value[j].key != reg[..width]
      {
        if bs.value[i].key == reg[..width] {
          member := true;
          break;
        }
      }
      assert member == FlatMember(bs.value, reg).value;
    }
    m := Some(member != e.invert);
  }
}
