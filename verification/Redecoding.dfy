/** Re-deriving the xt expressions of a document from the payloads it preserved, in place. */
module Redecoding {
  import opened Wrappers
  import opened Bytes

  // ---- xt expressions as a document holds them -------------------------------------------

  datatype DnatInfo = DnatInfo(minIp: string, maxIp: string, minPort: nat, maxPort: nat)

  /** A list of names as a document holds it: absent, or present and possibly empty. The two
      are different values to the comparison that decides whether anything changed. */
  type Names = Option<seq<string>>

  datatype ConntrackInfo = ConntrackInfo(matchesState: bool, states: Names, invert: bool)

  datatype AddrTypeInfo = AddrTypeInfo(dest: Names, source: Names, invertDest: bool, invertSource: bool)

  datatype RecentInfo = RecentInfo(mode: string, seconds: nat, hitCount: nat, invert: bool, name: Bytes)

  /** `raw` is the payload in hexadecimal, empty when none was preserved. */
  datatype XtRecord = XtRecord(
    kind: string,
    name: string,
    rev: nat,
    decoded: bool,
    dnat: Option<DnatInfo>,
    conntrack: Option<ConntrackInfo>,
    addrType: Option<AddrTypeInfo>,
    recent: Option<RecentInfo>,
    raw: string)

  /** What the library makes of a payload. */
  datatype Info =
    | NatRange(range: DnatInfo)
    | ConntrackMt(matchFlags: nat, invertFlags: nat, stateMask: nat)
    | AddrTypeV1(destMask: nat, sourceMask: nat, flags: nat)
    | AddrTypeV0(destMask: nat, sourceMask: nat, invDest: bool, invSource: bool)
    | Unnamed(payload: Bytes)
    | Unconverted

  /** The library: any functions of these arguments. */
  datatype Library = Library(
    decodeHex: string -> Option<Bytes>,
    encodeHex: Bytes -> string,
    unmarshal: (string, nat, nat, Bytes) -> Option<Info>)

  // ---- conversion ------------------------------------------------------------------------

  predicate HasBit(mask: nat, bit: nat)
    requires bit > 0
  {
    mask / bit % 2 == 1
  }

  /** The names whose bits are set, in the order of the table; appended to an absent list, which
      stays absent when there are none. */
  function BitNames(mask: nat, table: seq<(nat, string)>): Names {
    var names := NamesOf(mask, table);
    if names == [] then None else Some(names)
  }

  function NamesOf(mask: nat, table: seq<(nat, string)>): seq<string> {
    if table == [] then []
    else
      (if table[0].0 > 0 && HasBit(mask, table[0].0) then [table[0].1] else []) + NamesOf(mask, table[1..])
  }

  /** Every set bit has a name. */
  function NamedBits(mask: nat, table: seq<(nat, string)>): nat {
    if table == [] then 0
    else (if table[0].0 > 0 && HasBit(mask, table[0].0) then table[0].0 else 0) + NamedBits(mask, table[1..])
  }

  const CT_STATES: seq<(nat, string)> := [(0x1, "invalid"), (0x2, "established"), (0x4, "related"), (0x8, "new")]

  const ADDR_TYPES: seq<(nat, string)> := [
    (0x1, "unspec"), (0x2, "unicast"), (0x4, "local"), (0x8, "broadcast"), (0x10, "anycast"), (0x20, "multicast")]

  /** Only the state bit and its alias may constrain a conntrack match that counts as decoded. */
  predicate OnlyStateFlags(flags: nat) {
    flags in {0, 0x1, 0x2000, 0x2001}
  }

  function ConvertConntrack(matchFlags: nat, invertFlags: nat, stateMask: nat): ConntrackInfo {
    var state := HasBit(matchFlags, 1);
    ConntrackInfo(state, if state then BitNames(stateMask, CT_STATES) else None, HasBit(invertFlags, 1))
  }

  function RecentMode(checkSet: Byte): Option<string> {
    match checkSet
    case 1 => Some("rcheck")
    case 2 => Some("set")
    case 4 => Some("update")
    case 8 => Some("remove")
    case _ => None
  }

  function LittleEndian(b: Bytes, at: nat): nat
    requires at + 4 <= |b|
  {
    var b0: nat, b1: nat, b2: nat, b3: nat := b[at], b[at + 1], b[at + 2], b[at + 3];
    b0 + 0x100 * b1 + 0x1_0000 * b2 + 0x100_0000 * b3
  }

  function UpToNul(b: Bytes): Bytes {
    if b == [] || b[0] == 0 then [] else [b[0]] + UpToNul(b[1..])
  }

  /** The layout captured for revision 1: 232 bytes, and only the four confirmed modes. */
  function DecodeRecent(rev: nat, data: Bytes): Option<RecentInfo> {
    if rev != 1 || |data| != 232 then None
    else
      var mode := RecentMode(data[8]);
      if mode.None? then None
      else
        Some(RecentInfo(mode.value, LittleEndian(data, 0), LittleEndian(data, 4), data[9] != 0, UpToNul(data[10..210])))
  }

  function Blank(kind: string, name: string, rev: nat): XtRecord {
    XtRecord(kind, name, rev, false, None, None, None, None, "")
  }

  /** This program's own decoders over a preserved payload. */
  function DecodeRaw(lib: Library, x: XtRecord): XtRecord {
    if x.decoded || x.raw == "" then x
    else
      var bytes := lib.decodeHex(x.raw);
      if bytes.None? || x.name != "recent" then x
      else
        var info := DecodeRecent(x.rev, bytes.value);
        if info.None? then x else x.(recent := info, decoded := true)
  }

  function ConvertXt(lib: Library, kind: string, name: string, rev: nat, info: Info): XtRecord {
    var x := Blank(kind, name, rev);
    match info
    case NatRange(range) => x.(decoded := true, dnat := Some(range))
    case ConntrackMt(m, i, states) =>
      x.(conntrack := Some(ConvertConntrack(m, i, states)), decoded := OnlyStateFlags(m))
    case AddrTypeV1(d, s, flags) =>
      x.(decoded := !HasBit(flags, 4) && !HasBit(flags, 8) && NamedBits(d, ADDR_TYPES) == d && NamedBits(s,
                     ADDR_TYPES) == s,
         addrType := Some(AddrTypeInfo(BitNames(d, ADDR_TYPES), BitNames(s, ADDR_TYPES), HasBit(flags, 2),
                     HasBit(flags, 1))))
    case AddrTypeV0(d, s, invDest, invSource) =>
      x.(decoded := NamedBits(d, ADDR_TYPES) == d && NamedBits(s, ADDR_TYPES) == s,
         addrType := Some(AddrTypeInfo(BitNames(d, ADDR_TYPES), BitNames(s, ADDR_TYPES), invDest, invSource)))
    case Unnamed(payload) => DecodeRaw(lib, x.(raw := lib.encodeHex(payload)))
    case Unconverted => x
  }

  function XtFamily(family: string): nat {
    if family == "ip6" then 10 else if family == "inet" then 1 else if family == "netdev" then 5 else 2
  }

  /** One expression rebuilt from its payload, or left alone when there is none to read. */
  function Rebuilt(lib: Library, family: string, x: XtRecord): XtRecord {
    if x.raw == "" then x
    else
      var bytes := lib.decodeHex(x.raw);
      if bytes.None? then x
      else
        var info := lib.unmarshal(x.name, XtFamily(family), x.rev, bytes.value);
        if info.None? then x else ConvertXt(lib, x.kind, x.name, x.rev, info.value).(raw := x.raw)
  }

  // ---- properties of one expression -------------------------------------------------------

  /** What names the expression and its payload are the same, and without a payload everything
      is. */
  predicate Confined(x: XtRecord, y: XtRecord) {
    && y.kind == x.kind && y.name == x.name && y.rev == x.rev && y.raw == x.raw
    && (x.raw == "" ==> y == x)
  }

  lemma {:induction false} RebuildingIsConfined(lib: Library, family: string, x: XtRecord)
    ensures Confined(x, Rebuilt(lib, family, x))
  {
    var bytes := lib.decodeHex(x.raw);
    if x.raw != "" && bytes.Some? {
      var info := lib.unmarshal(x.name, XtFamily(family), x.rev, bytes.value);
      if info.Some? && info.value.Unnamed? {
        var y := Blank(x.kind, x.name, x.rev).(raw := lib.encodeHex(info.value.payload));
        assert DecodeRaw(lib, y).kind == x.kind;
      }
    }
  }

  /** Rebuilding reads nothing that rebuilding writes, so a second time changes nothing. */
  lemma {:induction false} RebuildingTwice(lib: Library, family: string, x: XtRecord)
    ensures Rebuilt(lib, family, Rebuilt(lib, family, x)) == Rebuilt(lib, family, x)
  {
    RebuildingIsConfined(lib, family, x);
  }

  // ---- the document, in place -------------------------------------------------------------

  class XtCell {
    var x: XtRecord

    constructor (x: XtRecord)
      ensures this.x == x
    {
      this.x := x;
    }
  }

  /** The expressions of a document in order, those of an xt extension by reference and with the
      family of their table. */
  datatype DocExpr = XtRef(family: string, cell: XtCell) | NotXt

  /** No xt expression is shared between two places of the document. */
  ghost predicate Unshared(doc: seq<DocExpr>) {
    forall i, j :: 0 <= i < j < |doc| && doc[i].XtRef? && doc[j].XtRef? ==> doc[i].cell != doc[j].cell
  }

  ghost function Cells(doc: seq<DocExpr>): set<XtCell> {
    set i | 0 <= i < |doc| && doc[i].XtRef? :: doc[i].cell
  }

  /** Every payload has been read: rebuilding any expression changes nothing. */
  ghost predicate Settled(lib: Library, doc: seq<DocExpr>)
    reads Cells(doc)
  {
    forall i :: 0 <= i < |doc| && doc[i].XtRef? ==> Rebuilt(lib, doc[i].family, doc[i].cell.x) == doc[i].cell.x
  }

  /** `redecodeXt`: overwrite one expression, and say whether that changed it. */
  method RedecodeXt(lib: Library, family: string, cell: XtCell) returns (differs: bool)
    modifies cell
    ensures cell.x == Rebuilt(lib, family, old(cell.x)) && differs == (cell.x != old(cell.x))
    ensures Confined(old(cell.x), cell.x)
  {
    RebuildingIsConfined(lib, family, cell.x);
    if cell.x.raw == "" {
      return false;
    }
    var bytes := lib.decodeHex(cell.x.raw);
    if bytes.None? {
      return false;
    }
    var info := lib.unmarshal(cell.x.name, XtFamily(family), cell.x.rev, bytes.value);
    if info.None? {
      return false;
    }
    var rebuilt := ConvertXt(lib, cell.x.kind, cell.x.name, cell.x.rev, info.value).(raw := cell.x.raw);
    if rebuilt == cell.x {
      return false;
    }
    cell.x := rebuilt;
    differs := true;
  }

  /** How many of the first `k` expressions rebuilding changes. */
  ghost function Changes(lib: Library, doc: seq<DocExpr>, k: nat): nat
    requires k <= |doc|
    reads Cells(doc)
  {
    if k == 0 then 0
    else
      Changes(lib, doc, k - 1) +
      (if doc[k - 1].XtRef? && Rebuilt(lib, doc[k - 1].family, doc[k - 1].cell.x) != doc[k - 1].cell.x then 1 else 0)
  }

  /** Rebuilds every xt expression and counts those that change. */
  method Redecode(lib: Library, doc: seq<DocExpr>) returns (n: nat)
    requires Unshared(doc)
    modifies Cells(doc)
    ensures forall i :: 0 <= i < |doc| && doc[i].XtRef? ==>
      doc[i].cell.x == Rebuilt(lib, doc[i].family, old(doc[i].cell.x))
    ensures forall i :: 0 <= i < |doc| && doc[i].XtRef? ==> Confined(old(doc[i].cell.x), doc[i].cell.x)
    ensures n == old(Changes(lib, doc, |doc|))
    ensures Settled(lib, doc)
  {
    n := 0;
    for k := 0 to |doc|
      invariant n == old(Changes(lib, doc, k))
      invariant forall i :: 0 <= i < |doc| && doc[i].XtRef? ==>
        doc[i].cell.x == if i < k then Rebuilt(lib, doc[i].family, old(doc[i].cell.x)) else old(doc[i].cell.x)
    {
      if doc[k].XtRef? {
        var differs := RedecodeXt(lib, doc[k].family, doc[k].cell);
        if differs {
          n := n + 1;
        }
      }
    }
    forall i | 0 <= i < |doc| && doc[i].XtRef? ensures Rebuilt(lib, doc[i].family, doc[i].cell.x) == doc[i].cell.x {
      RebuildingTwice(lib, doc[i].family, old(doc[i].cell.x));
    }
    forall i | 0 <= i < |doc| && doc[i].XtRef? ensures Confined(old(doc[i].cell.x), doc[i].cell.x) {
      RebuildingIsConfined(lib, doc[i].family, old(doc[i].cell.x));
    }
  }

  /** On a settled document, such as one just redecoded, nothing is left to count. */
  lemma {:induction false} NothingToCount(lib: Library, doc: seq<DocExpr>, k: nat)
    requires k <= |doc| && Settled(lib, doc)
    ensures Changes(lib, doc, k) == 0
  {
    if k > 0 {
      NothingToCount(lib, doc, k - 1);
    }
  }

  /** A second run reports 0 and leaves every expression as the first run left it. */
  method RedecodeAgain(lib: Library, doc: seq<DocExpr>) returns (n: nat)
    requires Unshared(doc) && Settled(lib, doc)
    modifies Cells(doc)
    ensures n == 0 && forall i :: 0 <= i < |doc| && doc[i].XtRef? ==> doc[i].cell.x == old(doc[i].cell.x)
  {
    NothingToCount(lib, doc, |doc|);
    n := Redecode(lib, doc);
  }
}
