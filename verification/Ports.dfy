/** The port specification a probe is given, and the one it hands to another machine: the parser
    reads back what the printer writes. */
module Ports {
  import opened Wrappers
  import opened Facts
  import opened Sorting

  const MAX_PORTS := 4096

  // ---- text ---------------------------------------------------------------------------

  /** Unicode white space, as the library trims it. */
  predicate IsSpace(c: char) {
    var n := c as int;
    9 <= n <= 13 || n in {32, 0x85, 0xA0, 0x1680, 0x2028, 0x2029, 0x202F, 0x205F, 0x3000} || 0x2000 <= n <= 0x200A
  }

  function TrimLeft(s: string): string {
    if s != [] && IsSpace(s[0]) then TrimLeft(s[1..]) else s
  }

  function TrimRight(s: string): string {
    if s != [] && IsSpace(s[|s| - 1]) then TrimRight(s[..|s| - 1]) else s
  }

  function TrimSpace(s: string): string {
    TrimRight(TrimLeft(s))
  }

  /** The first position of `c`, or the length. */
  function IndexOf(s: string, c: char): (i: nat)
    ensures i <= |s|
  {
    if s == [] || s[0] == c then 0 else 1 + IndexOf(s[1..], c)
  }

  function Split(s: string): seq<string>
    decreases |s|
  {
    var i := IndexOf(s, ',');
    if i == |s| then [s] else [s[..i]] + Split(s[i + 1..])
  }

  predicate IsDigit(c: char) {
    '0' <= c <= '9'
  }

  function DigitValue(c: char): nat
    requires IsDigit(c)
  {
    c as int - '0' as int
  }

  function Value(s: string): nat
    requires forall c :: c in s ==> IsDigit(c)
  {
    if s == [] then 0 else 10 * Value(s[..|s| - 1]) + DigitValue(s[|s| - 1])
  }

  /** Decimal digits only, at most 65535, not 0. */
  function ParsePort(s: string): Option<Port> {
    var t := TrimSpace(s);
    if t != [] && (forall c :: c in t ==> IsDigit(c)) && 0 < Value(t) < 65536 then Some(Value(t)) else None
  }

  function DigitChar(d: nat): char
    requires d < 10
  {
    '0' + d as char
  }

  function Itoa(n: nat): string {
    if n < 10 then [DigitChar(n)] else Itoa(n / 10) + [DigitChar(n % 10)]
  }

  function Join(parts: seq<string>): string {
    if parts == [] then [] else if |parts| == 1 then parts[0] else parts[0] + "," + Join(parts[1..])
  }

  // ---- what a specification means ----------------------------------------------------------

  /** One part: a port, or a range that is not empty and not too large. */
  function PartRange(text: string): Option<(Port, Port)> {
    var part := TrimSpace(text);
    var cut := IndexOf(part, '-');
    var lo := ParsePort(part[..cut]);
    if lo.None? then None
    else if cut == |part| then Some((lo.value, lo.value))
    else
      var hi := ParsePort(part[cut + 1..]);
      if hi.None? || hi.value < lo.value || hi.value - lo.value + 1 > MAX_PORTS then None
      else Some((lo.value, hi.value))
  }

  predicate InPart(text: string, p: Port) {
    PartRange(text).Some? && PartRange(text).value.0 <= p <= PartRange(text).value.1
  }

  predicate InParts(parts: seq<string>, p: Port) {
    exists part :: part in parts && InPart(part, p)
  }

  /** The ports the parts name. */
  function Union(parts: seq<string>): set<Port> {
    set p: Port | 0 <= p < 65536 && InParts(parts, p)
  }

  /** Every part reads, and together they name at most as many ports as one run probes. */
  predicate Acceptable(spec: string) {
    && TrimSpace(spec) != []
    && (forall part :: part in Split(spec) ==> PartRange(part).Some?)
    && |Union(Split(spec))| <= MAX_PORTS
  }

  predicate Increasing(ports: seq<Port>) {
    forall i, j :: 0 <= i < j < |ports| ==> ports[i] < ports[j]
  }

  function Ports(ports: seq<Port>): set<Port> {
    set p | p in ports
  }

  predicate Distinct(ports: seq<Port>) {
    forall i, j :: 0 <= i < j < |ports| ==> ports[i] != ports[j]
  }

  lemma {:induction false} DistinctCount(ports: seq<Port>)
    requires Distinct(ports)
    ensures |Ports(ports)| == |ports|
  {
    if ports == [] {
      assert Ports(ports) == {};
    } else {
      var last, front := ports[|ports| - 1], ports[..|ports| - 1];
      DistinctCount(front);
      assert ports == front + [last];
      assert Ports(ports) == Ports(front) + {last};
      assert last !in Ports(front);
    }
  }

  predicate PortLe(a: Port, b: Port) {
    a <= b
  }

  lemma {:induction false} SortPorts(ports: seq<Port>)
    requires Distinct(ports)
    ensures Increasing(Sort(ports, PortLe)) && Ports(Sort(ports, PortLe)) == Ports(ports)
  {
    var s := Sort(ports, PortLe);
    SortSorts(ports, PortLe);
    SortPermutes(ports, PortLe);
    SameMembers(s, ports);
    ApartIsOrderFree(ports, s, (a: Port, b: Port) => a == b);
    forall i, j | 0 <= i < j < |s| ensures s[i] < s[j] {
      assert PortLe(s[i], s[j]);
    }
  }

  lemma {:induction false} OneMorePart(parts: seq<string>, part: string, q: Port)
    ensures InParts(parts + [part], q) <==> InParts(parts, q) || InPart(part, q)
  {
    if InParts(parts, q) {
      var p :| p in parts && InPart(p, q);
      assert p in parts + [part];
    }
    assert part in parts + [part];
  }

  /** Every port of a range in turn, each kept the first time it is seen. */
  method AddRange(seen: set<Port>, out: seq<Port>, first: Port, last: Port) returns (seen': set<Port>, out': seq<Port>)
    requires seen == Ports(out) && Distinct(out)
    ensures seen' == Ports(out') && Distinct(out')
    ensures forall q: Port :: q in seen' <==> q in seen || first <= q <= last
  {
    seen', out' := seen, out;
    var lo: int, hi: int := first, last;
    if lo > hi {
      return;
    }
    for p := lo to hi + 1
      invariant seen' == Ports(out') && Distinct(out')
      invariant forall q: Port :: q in seen' <==> q in seen || lo <= q < p
    {
      if p !in seen' {
        seen' := seen' + {p};
        out' := out' + [p];
      }
    }
  }

  /** What has been read of the parts so far. */
  ghost predicate HasRead(parts: seq<string>, seen: set<Port>, out: seq<Port>) {
    && (forall part :: part in parts ==> PartRange(part).Some?)
    && seen == Ports(out) && Distinct(out)
    && forall p: Port :: p in seen <==> InParts(parts, p)
  }

  lemma {:induction false} ReadsOneMore(parts: seq<string>, part: string, before: set<Port>, seen: set<Port>,
                                        out: seq<Port>)
    requires (forall p :: p in parts ==> PartRange(p).Some?) && PartRange(part).Some?
    requires seen == Ports(out) && Distinct(out) && forall p: Port :: p in before <==> InParts(parts, p)
    requires forall p: Port :: p in seen <==> p in before || InPart(part, p)
    ensures HasRead(parts + [part], seen, out)
  {
    forall p: Port ensures p in seen <==> InParts(parts + [part], p) {
      OneMorePart(parts, part, p);
    }
  }

  lemma {:induction false} ReadsAll(parts: seq<string>, seen: set<Port>, out: seq<Port>)
    requires HasRead(parts, seen, out)
    ensures Union(parts) == Ports(out) && |Union(parts)| == |out|
  {
    assert Union(parts) == seen;
    DistinctCount(out);
  }

  /** Every part in turn, and the sorted ports of them all. */
  method ParsePorts(spec: string) returns (r: Option<seq<Port>>)
    ensures r.Some? <==> Acceptable(spec)
    ensures r.Some? ==> Increasing(r.value) && Ports(r.value) == Union(Split(spec))
  {
    if TrimSpace(spec) == [] {
      return None;
    }
    var parts := Split(spec);
    var seen: set<Port> := {};
    var out: seq<Port> := [];
    for i := 0 to |parts|
      invariant HasRead(parts[..i], seen, out)
    {
      assert parts[..i + 1] == parts[..i] + [parts[i]];
      var range := PartRange(parts[i]);
      if range.None? {
        assert parts[i] in parts;
        return None;
      }
      ghost var before := seen;
      seen, out := AddRange(seen, out, range.value.0, range.value.1);
      ReadsOneMore(parts[..i], parts[i], before, seen, out);
    }
    assert parts[..|parts|] == parts;
    ReadsAll(parts, seen, out);
    if |out| > MAX_PORTS {
      return None;
    }
    SortPorts(out);
    r := Some(Sort(out, PortLe));
  }

  // ---- the printer and the round trip -------------------------------------------------------

  function Texts(ports: seq<Port>): (ts: seq<string>)
    ensures |ts| == |ports|
  {
    seq(|ports|, i requires 0 <= i < |ports| => Itoa(ports[i]))
  }

  function Render(ports: seq<Port>): string {
    Join(Texts(ports))
  }

  /** The loop in `Remote` that spells the ports, one after the other. */
  method RenderSpec(ports: seq<Port>) returns (spec: string)
    ensures spec == Render(ports)
  {
    var parts: seq<string> := [];
    for i := 0 to |ports|
      invariant |parts| == i && forall k :: 0 <= k < i ==> parts[k] == Itoa(ports[k])
    {
      parts := parts + [Itoa(ports[i])];
    }
    assert parts == Texts(ports);
    spec := Join(parts);
  }

  predicate AllDigits(s: string) {
    forall c :: c in s ==> IsDigit(c)
  }

  lemma {:induction false} ItoaReadsBack(n: nat)
    ensures Itoa(n) != [] && AllDigits(Itoa(n)) && Value(Itoa(n)) == n
  {
    var s := Itoa(n);
    if n >= 10 {
      ItoaReadsBack(n / 10);
      assert s[..|s| - 1] == Itoa(n / 10);
    } else {
      assert s[..|s| - 1] == [];
    }
  }

  lemma {:induction false} DigitsAreNotSpace(s: string)
    requires s != [] && IsDigit(s[0]) && IsDigit(s[|s| - 1])
    ensures TrimSpace(s) == s
  {
  }

  lemma {:induction false} NoIndex(s: string, c: char)
    requires c !in s
    ensures IndexOf(s, c) == |s|
  {
    if s != [] {
      NoIndex(s[1..], c);
    }
  }

  lemma {:induction false} IndexAfter(s: string, c: char, rest: string)
    requires c !in s
    ensures IndexOf(s + [c] + rest, c) == |s|
  {
    var all := s + [c] + rest;
    if s != [] {
      IndexAfter(s[1..], c, rest);
      assert all[1..] == s[1..] + [c] + rest;
    }
  }

  lemma {:induction false} SplitJoin(parts: seq<string>)
    requires parts != [] && forall p :: p in parts ==> ',' !in p
    ensures Split(Join(parts)) == parts
  {
    var s := Join(parts);
    assert parts[0] in parts;
    if |parts| == 1 {
      NoIndex(parts[0], ',');
    } else {
      var rest := Join(parts[1..]);
      IndexAfter(parts[0], ',', rest);
      assert s == parts[0] + [','] + rest;
      assert s[..|parts[0]|] == parts[0] && s[|parts[0]| + 1..] == rest;
      SplitJoin(parts[1..]);
    }
  }

  lemma {:induction false} PortReadsBack(p: Port)
    requires p != 0
    ensures PartRange(Itoa(p)) == Some((p, p)) && ',' !in Itoa(p)
  {
    var s := Itoa(p);
    ItoaReadsBack(p);
    DigitsAreNotSpace(s);
    NoIndex(s, '-');
    assert s[..|s|] == s;
  }

  lemma {:induction false} JoinEnds(parts: seq<string>)
    requires parts != [] && forall p :: p in parts ==> p != [] && AllDigits(p)
    ensures var s := Join(parts); s != [] && IsDigit(s[0]) && IsDigit(s[|s| - 1])
  {
    assert parts[0] in parts;
    if |parts| > 1 {
      assert forall p :: p in parts[1..] ==> p in parts;
      JoinEnds(parts[1..]);
      var s, rest := Join(parts), Join(parts[1..]);
      assert s[0] == parts[0][0] && s[|s| - 1] == rest[|rest| - 1];
    }
  }

  /** The texts of non-zero ports: free of commas, made of digits, and read back one by one. */
  lemma {:induction false} TextsReadBack(ports: seq<Port>, text: string)
    requires 0 !in ports && text in Texts(ports)
    ensures ',' !in text && text != [] && AllDigits(text)
    ensures exists p :: p in ports && PartRange(text) == Some((p, p))
  {
    var k :| 0 <= k < |ports| && Texts(ports)[k] == text;
    assert ports[k] in ports;
    PortReadsBack(ports[k]);
    ItoaReadsBack(ports[k]);
  }

  lemma {:induction false} TextNamesPort(ports: seq<Port>, text: string, p: Port)
    requires 0 !in ports && text in Texts(ports) && InPart(text, p)
    ensures p in ports
  {
    TextsReadBack(ports, text);
  }

  lemma {:induction false} TextsUnion(ports: seq<Port>, p: Port)
    requires 0 !in ports
    ensures InParts(Texts(ports), p) <==> p in ports
  {
    if p in ports {
      var k :| 0 <= k < |ports| && ports[k] == p;
      PortReadsBack(p);
      assert Texts(ports)[k] in Texts(ports) && InPart(Texts(ports)[k], p);
    }
    if InParts(Texts(ports), p) {
      var part :| part in Texts(ports) && InPart(part, p);
      TextNamesPort(ports, part, p);
    }
  }

  /** For every non-empty list of non-zero ports with few enough distinct values, the parser
      accepts what the printer writes, and reads exactly those ports; so `ParsePorts` returns the
      sorted list of distinct ports. */
  lemma {:induction false} PrintThenParse(ports: seq<Port>)
    requires ports != [] && 0 !in ports && |Ports(ports)| <= MAX_PORTS
    ensures Acceptable(Render(ports)) && Union(Split(Render(ports))) == Ports(ports)
  {
    var parts := Texts(ports);
    forall part | part in parts ensures ',' !in part && part != [] && AllDigits(part) && PartRange(part).Some? {
      TextsReadBack(ports, part);
    }
    SplitJoin(parts);
    JoinEnds(parts);
    DigitsAreNotSpace(Render(ports));
    forall p: Port ensures p in Union(parts) <==> p in ports {
      TextsUnion(ports, p);
    }
    assert Union(parts) == Ports(ports);
  }

  /** There is only one sorted list of a set of ports, so what `ParsePorts` accepts determines what
      it returns. */
  lemma {:induction false} IncreasingUnique(a: seq<Port>, b: seq<Port>)
    requires Increasing(a) && Increasing(b) && Ports(a) == Ports(b)
    ensures a == b
  {
    forall p ensures p in a <==> p in b {
      assert p in a <==> p in Ports(a);
      assert p in b <==> p in Ports(b);
    }
    AscendingUnique(a, b, PortLe);
  }
}
