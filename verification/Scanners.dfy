/** The forward scan as the source performs it: one mutable scan per base chain, appending rows
    and notes, and a pass that keeps the first of every family, protocol and port. */
module Scanners {
  import opened Facts
  import opened Sorting
  import opened Traversal
  import opened Forwards

  class FwdScan {
    const table: Table
    const bound: nat
    var rows: seq<FwdRow>
    var notes: seq<FwdNote>

    constructor (table: Table, bound: nat)
      ensures this.table == table && this.bound == bound && rows == [] && notes == []
    {
      this.table, this.bound := table, bound;
      rows, notes := [], [];
    }

    method WalkChain(ch: Chain, m: FwdMatch, depth: nat)
      modifies this
      ensures rows == old(rows) + ScanChain(bound, table, ch, m, depth).rows
      ensures notes == old(notes) + ScanChain(bound, table, ch, m, depth).notes
      decreases ScanLeft(bound, depth), 1
    {
      if depth > bound {
        return;
      }
      ghost var all := ScanRules(bound, table, ch, ch.rules, m, depth);
      assert ch.rules[0..] == ch.rules;
      for i := 0 to |ch.rules|
        invariant old(rows) + all.rows == rows + ScanRules(bound, table, ch, ch.rules[i..], m, depth).rows
        invariant old(notes) + all.notes == notes + ScanRules(bound, table, ch, ch.rules[i..], m, depth).notes
      {
        ghost var rest := ch.rules[i..];
        assert rest[0] == ch.rules[i] && rest[1..] == ch.rules[i + 1..];
        ghost var rows0, notes0 := rows, notes;
        ghost var here := ScanRule(bound, table, ch, ch.rules[i], 0, ScanState(map[], map[], m), depth);
        ghost var there := ScanRules(bound, table, ch, rest[1..], m, depth);
        ScanOneRule(ch, ch.rules[i], m, depth);
        ConcatAssociates(rows0, here.rows, there.rows);
        ConcatAssociates(notes0, here.notes, there.notes);
      }
    }

    method ScanOneRule(ch: Chain, r: Rule, m: FwdMatch, depth: nat)
      requires depth <= bound
      modifies this
      ensures rows == old(rows) + ScanRule(bound, table, ch, r, 0, ScanState(map[], map[], m), depth).rows
      ensures notes == old(notes) + ScanRule(bound, table, ch, r, 0, ScanState(map[], map[], m), depth).notes
      decreases ScanLeft(bound, depth), 0
    {
      var st := ScanState(map[], map[], m);
      ghost var start := st;
      for i := 0 to |r.exprs|
        invariant rows == old(rows) && notes == old(notes)
        invariant ScanRule(bound, table, ch, r, i, st, depth) == ScanRule(bound, table, ch, r, 0, start, depth)
      {
        match ScanExpr(table.sets, r.exprs[i], st) {
          case ScanOn(next) =>
            st := next;
          case ScanEmit(target) =>
            EmitRewrite(ch, r, st.m, target);
            return;
          case ScanFollow(name) =>
            var target := FindInChains(table.chains, name);
            if target.Some? {
              WalkChain(target.value, st.m, depth + 1);
            }
            return;
          case ScanEnd =>
            return;
        }
      }
    }

    method EmitRewrite(ch: Chain, r: Rule, m: FwdMatch, t: FwdTarget)
      modifies this
      ensures rows == old(rows) + Emit(table, ch, r, m, t).rows
      ensures notes == old(notes) + Emit(table, ch, r, m, t).notes
    {
      if m.proto == "other" {
        return;
      }
      if m.refuse.Some? || m.ports == [] {
        notes := notes + [FwdNote(table.family, table.name, ch.name, r.handle, t, m.refuse)];
        return;
      }
      var families := RowFamilies(table, t);
      ghost var start := rows;
      for i := 0 to |families|
        invariant notes == old(notes)
        invariant start + FamilyRows(families, FwdProtos(m.proto), m.ports, t)
          == rows + FamilyRows(families[i..], FwdProtos(m.proto), m.ports, t)
      {
        assert families[i..][0] == families[i] && families[i..][1..] == families[i + 1..];
        ConcatAssociates(rows, ProtoRows(families[i], FwdProtos(m.proto), m.ports, t),
          FamilyRows(families[i + 1..], FwdProtos(m.proto), m.ports, t));
        EmitFamily(families[i], FwdProtos(m.proto), m.ports, t);
      }
    }

    method EmitFamily(family: string, protos: seq<string>, ports: seq<Port>, t: FwdTarget)
      modifies this`rows
      ensures rows == old(rows) + ProtoRows(family, protos, ports, t)
    {
      ghost var start := rows;
      for j := 0 to |protos|
        invariant start + ProtoRows(family, protos, ports, t) == rows + ProtoRows(family, protos[j..], ports, t)
      {
        assert protos[j..][0] == protos[j] && protos[j..][1..] == protos[j + 1..];
        ghost var rest := ProtoRows(family, protos[j + 1..], ports, t);
        ConcatAssociates(rows, PortRows(family, protos[j], ports, t), rest);
        for k := 0 to |ports|
          invariant start + ProtoRows(family, protos, ports, t)
            == (rows + PortRows(family, protos[j], ports[k..], t)) + rest
        {
          assert ports[k..][0] == ports[k] && ports[k..][1..] == ports[k + 1..];
          ConcatAssociates(rows, [FwdRow(family, protos[j], ports[k], t)],
            PortRows(family, protos[j], ports[k + 1..], t));
          rows := rows + [FwdRow(family, protos[j], ports[k], t)];
        }
      }
    }
  }

  // ---- keeping the first of each ---------------------------------------------------------

  lemma {:induction false} AddRowsInParts(kept: seq<FwdRow>, a: seq<FwdRow>, b: seq<FwdRow>)
    ensures AddRows(kept, a + b) == AddRows(AddRows(kept, a), b)
    decreases |a|
  {
    ConcatHead(a, b);
    if a != [] {
      var seen := exists k :: k in kept && SameRow(k, a[0]);
      AddRowsInParts(if seen then kept else kept + [a[0]], a[1..], b);
    }
  }

  lemma {:induction false} AddNotesInParts(kept: seq<FwdNote>, a: seq<FwdNote>, b: seq<FwdNote>)
    ensures AddNotes(kept, a + b) == AddNotes(AddNotes(kept, a), b)
    decreases |a|
  {
    ConcatHead(a, b);
    if a != [] {
      AddNotesInParts(if a[0] in kept then kept else kept + [a[0]], a[1..], b);
    }
  }

  function Key(row: FwdRow): (string, string, Port) {
    (row.family, row.proto, row.port)
  }

  /** Adds what one scan found, remembering keys in `seen` and messages in `said`. */
  method Merge(kept: seq<FwdRow>, seen: set<(string, string, Port)>, rows: seq<FwdRow>)
    returns (kept': seq<FwdRow>, seen': set<(string, string, Port)>)
    requires seen == set row | row in kept :: Key(row)
    ensures kept' == AddRows(kept, rows)
    ensures seen' == set row | row in kept' :: Key(row)
  {
    kept', seen' := kept, seen;
    assert rows[0..] == rows;
    for i := 0 to |rows|
      invariant seen' == set row | row in kept' :: Key(row)
      invariant AddRows(kept', rows[i..]) == AddRows(kept, rows)
    {
      var row := rows[i];
      assert rows[i..][0] == row && rows[i..][1..] == rows[i + 1..];
      if Key(row) in seen' {
        assert exists k :: k in kept' && SameRow(k, row);
        continue;
      }
      forall k | k in kept' ensures !SameRow(k, row) {
        assert Key(k) in seen';
      }
      seen' := seen' + {Key(row)};
      kept' := kept' + [row];
    }
  }

  method MergeNotes(kept: seq<FwdNote>, said: set<FwdNote>, notes: seq<FwdNote>)
    returns (kept': seq<FwdNote>, said': set<FwdNote>)
    requires said == set n | n in kept
    ensures kept' == AddNotes(kept, notes)
    ensures said' == set n | n in kept'
  {
    kept', said' := kept, said;
    assert notes[0..] == notes;
    for i := 0 to |notes|
      invariant said' == set n | n in kept'
      invariant AddNotes(kept', notes[i..]) == AddNotes(kept, notes)
    {
      assert notes[i..][0] == notes[i] && notes[i..][1..] == notes[i + 1..];
      if notes[i] !in said' {
        said' := said' + {notes[i]};
        kept' := kept' + [notes[i]];
      }
    }
  }

  /** What is still to come: the chains left in this table, then the tables after it. */
  ghost function Pending(bound: nat, table: Table, chains: seq<Chain>, tables: seq<Table>): Found {
    ScanBases(bound, table, chains).Then(ScanTables(bound, tables))
  }

  /** `forwards`: one scan per prerouting base chain, its rows and notes merged in order. */
  method FindForwards(bound: nat, rs: Ruleset) returns (rows: seq<FwdRow>, notes: seq<FwdNote>)
    ensures Found(rows, notes) == ForwardRows(bound, rs)
  {
    rows, notes := [], [];
    var seen: set<(string, string, Port)> := {};
    var said: set<FwdNote> := {};
    ghost var goal := ForwardRows(bound, rs);
    assert rs.tables[0..] == rs.tables;
    for i := 0 to |rs.tables|
      invariant seen == (set row | row in rows :: Key(row)) && said == set n | n in notes
      invariant goal.rows == AddRows(rows, ScanTables(bound, rs.tables[i..]).rows)
      invariant goal.notes == AddNotes(notes, ScanTables(bound, rs.tables[i..]).notes)
    {
      var t := rs.tables[i];
      ghost var later := rs.tables[i + 1..];
      assert rs.tables[i..][0] == t && rs.tables[i..][1..] == later;
      if TableFamilies(t.family) == [] {
        ConcatHead([], ScanTables(bound, later).rows);
        ConcatHead([], ScanTables(bound, later).notes);
        continue;
      }
      assert t.chains[0..] == t.chains;
      for j := 0 to |t.chains|
        invariant seen == (set row | row in rows :: Key(row)) && said == set n | n in notes
        invariant goal.rows == AddRows(rows, Pending(bound, t, t.chains[j..], later).rows)
        invariant goal.notes == AddNotes(notes, Pending(bound, t, t.chains[j..], later).notes)
      {
        var ch := t.chains[j];
        ghost var left := Pending(bound, t, t.chains[j + 1..], later);
        assert t.chains[j..][0] == ch && t.chains[j..][1..] == t.chains[j + 1..];
        PendingStep(bound, t, t.chains[j..], later);
        if ch.base && ch.hook == "prerouting" {
          var s := new FwdScan(t, bound);
          s.WalkChain(ch, NO_CONSTRAINT, 0);
          ConcatHead([], ScanChain(bound, t, ch, NO_CONSTRAINT, 0).rows);
          ConcatHead([], ScanChain(bound, t, ch, NO_CONSTRAINT, 0).notes);
          AddRowsInParts(rows, s.rows, left.rows);
          AddNotesInParts(notes, s.notes, left.notes);
          rows, seen := Merge(rows, seen, s.rows);
          notes, said := MergeNotes(notes, said, s.notes);
        }
      }
      assert t.chains[|t.chains|..] == [];
      ConcatHead([], ScanTables(bound, later).rows);
      ConcatHead([], ScanTables(bound, later).notes);
    }
    assert rs.tables[|rs.tables|..] == [];
  }

  lemma {:induction false} PendingStep(bound: nat, table: Table, chains: seq<Chain>, tables: seq<Table>)
    requires chains != []
    ensures var rest := Pending(bound, table, chains[1..], tables);
      Pending(bound, table, chains, tables) ==
      if chains[0].base && chains[0].hook == "prerouting" then
        ScanChain(bound, table, chains[0], NO_CONSTRAINT, 0).Then(rest)
      else rest
  {
    var here :=
      if chains[0].base && chains[0].hook == "prerouting" then ScanChain(bound, table, chains[0], NO_CONSTRAINT, 0)
      else NOTHING;
    var mid, last := ScanBases(bound, table, chains[1..]), ScanTables(bound, tables);
    ConcatAssociates(here.rows, mid.rows, last.rows);
    ConcatAssociates(here.notes, mid.notes, last.notes);
    ConcatHead([], (mid.Then(last)).rows);
    ConcatHead([], (mid.Then(last)).notes);
  }
}
