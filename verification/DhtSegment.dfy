/** A DHT segment (section B.2.4.2 of ITU-T T.81): any number of table definitions, each for one of four tables. */
module DhtSegment {
  import opened BitStrings
  import opened HuffmanTables
  import opened LookupTables

  /** Tables 0 and 2 are for DC, 1 and 3 for AC. */
  function TabOf(uc: Byte): nat {
    uc % 16 * 2 + uc / 16
  }

  /** The definitions from pos on name existing tables and lie within the buffer. */
  predicate SegmentFits(buffer: seq<Byte>, pos: nat, limit: nat)
    decreases |buffer| - pos
  {
    && pos < |buffer|
    && TabOf(buffer[pos]) < 4
    && DefinitionFits(buffer, pos + 1)
    && var end := DefinitionEnd(buffer, pos + 1);
    && end <= |buffer|
    && (end < limit ==> SegmentFits(buffer, end, limit))
  }

  /** The four tables after the definitions from pos on; one definition is read even when limit is 0. */
  function SegmentTables(buffer: seq<Byte>, pos: nat, limit: nat, es: seq<Entries>): (r: seq<Entries>)
    requires |es| == 4 && SegmentFits(buffer, pos, limit)
    ensures |r| == 4
    decreases |buffer| - pos
  {
    var end := DefinitionEnd(buffer, pos + 1);
    var es' := es[TabOf(buffer[pos]) := Definition(buffer, pos + 1)];
    if end < limit then SegmentTables(buffer, end, limit, es') else es'
  }

  ghost predicate Apart(tables: seq<LookupTable>) {
    && |tables| == 4
    && (forall i :: 0 <= i < 4 ==> tables[i].Valid())
    && (forall i, j :: 0 <= i < j < 4 ==> tables[i].Repr() !! tables[j].Repr())
  }

  ghost function Footprint(tables: seq<LookupTable>): set<object> {
    set t, o | t in tables && o in t.Repr() :: o
  }

  ghost predicate AllRepresent(tables: seq<LookupTable>, es: seq<Entries>)
    reads Footprint(tables)
  {
    && |tables| == |es| == 4
    && forall i :: 0 <= i < 4 ==> tables[i].Repr() <= Footprint(tables) && tables[i].Represents(es[i])
  }

  lemma KnowTable(tables: seq<LookupTable>, es: seq<Entries>, i: nat)
    requires Apart(tables) && AllRepresent(tables, es) && i < 4
    ensures |tables| == |es| == 4 && tables[i].Repr() <= Footprint(tables)
    ensures tables[i].Valid() && tables[i].Represents(es[i])
  {}

  lemma Together(tables: seq<LookupTable>, es: seq<Entries>)
    requires |tables| == |es| == 4 && forall i :: 0 <= i < 4 ==> tables[i].Represents(es[i])
    ensures AllRepresent(tables, es)
  {}

  lemma ApartTables(tables: seq<LookupTable>, i: nat, j: nat)
    requires Apart(tables) && i < 4 && j < 4 && i != j
    ensures |tables| == 4 && tables[i].Repr() !! tables[j].Repr()
  {
    if i < j {
      assert tables[i].Repr() !! tables[j].Repr();
    } else {
      assert tables[j].Repr() !! tables[i].Repr();
    }
  }

  /** One definition: the table it names changes, the others do not. */
  method ReadDefinition(tables: seq<LookupTable>, buffer: seq<Byte>, pos: nat, ghost es: seq<Entries>)
    returns (pos2: nat)
    requires Apart(tables) && AllRepresent(tables, es)
    requires pos < |buffer| && TabOf(buffer[pos]) < 4 && DefinitionFits(buffer, pos + 1)
    modifies Footprint(tables)
    ensures pos2 == DefinitionEnd(buffer, pos + 1)
    ensures AllRepresent(tables, es[TabOf(buffer[pos]) := Definition(buffer, pos + 1)])
  {
    hide Definition, DefinitionFits, DefinitionEnd, LookupTable.Represents, LookupTable.Valid, Apart, AllRepresent;
    KnowTable(tables, es, TabOf(buffer[pos]));
    var uc := buffer[pos];
    var tab := uc % 16 * 2 + uc / 16;
    forall i | 0 <= i < 4 ensures tables[i].Represents(es[i]) { KnowTable(tables, es, i); }
    pos2 := tables[tab].Define(buffer, pos + 1);
    forall i | 0 <= i < 4 && i != tab ensures tables[i].Represents(es[i]) {
      ApartTables(tables, i, tab);
      assert old(tables[i].Represents(es[i]));
    }
    Together(tables, es[tab := Definition(buffer, pos + 1)]);
  }

  /** The loop over the definitions of a segment. */
  method ParseSegment(tables: seq<LookupTable>, buffer: seq<Byte>, limit: int, ghost es: seq<Entries>)
    requires Apart(tables) && AllRepresent(tables, es) && |es| == 4
    requires SegmentFits(buffer, 0, if limit < 0 then 0 else limit)
    modifies Footprint(tables)
    ensures AllRepresent(tables, SegmentTables(buffer, 0, if limit < 0 then 0 else limit, es))
  {
    hide Definition, DefinitionFits, AllRepresent;
    ghost var bound: nat, now := if limit < 0 then 0 else limit, es;
    var pos: nat, more := 0, true;
    while more
      invariant AllRepresent(tables, now) && |now| == 4
      invariant more ==> SegmentFits(buffer, pos, bound)
      invariant SegmentTables(buffer, 0, bound, es) == if more then SegmentTables(buffer, pos, bound, now) else now
      decreases |buffer| - pos, more
    {
      ghost var next := now[TabOf(buffer[pos]) := Definition(buffer, pos + 1)];
      pos := ReadDefinition(tables, buffer, pos, now);
      now := next;
      more := pos < limit;
    }
  }

  // ----- writing a segment -----

  datatype TableDef = TableDef(id: Byte, counts: seq<Byte>, symbols: seq<Byte>) {
    predicate Valid() {
      && TabOf(id) < 4 && |counts| == 16
      && |symbols| == Total(counts, 1) <= MAX_CODES
    }

    function Table(): Entries
      requires Valid()
    {
      Canonical(counts, symbols)
    }

    function Bytes(): seq<Byte> {
      [id] + counts + symbols
    }
  }

  type TableDefs = defs: seq<TableDef> | forall i :: 0 <= i < |defs| ==> defs[i].Valid()

  function Segment(defs: TableDefs): seq<Byte> {
    if defs == [] then [] else defs[0].Bytes() + Segment(defs[1..])
  }

  /** Table k after the definitions: the last one that names it counts. */
  function TableAfter(es: seq<Entries>, defs: TableDefs, k: nat): Entries
    requires |es| == 4 && k < 4
  {
    if defs == [] then es[k]
    else
      var d := defs[|defs| - 1];
      if TabOf(d.id) == k then d.Table() else TableAfter(es, defs[..|defs| - 1], k)
  }

  lemma {:induction false} TableAfterFront(es: seq<Entries>, defs: TableDefs, k: nat)
    requires |es| == 4 && k < 4 && defs != []
    ensures TableAfter(es, defs, k) == TableAfter(es[TabOf(defs[0].id) := defs[0].Table()], defs[1..], k)
  {
    var n := |defs| - 1;
    if n > 0 && TabOf(defs[n].id) != k {
      TableAfterFront(es, defs[..n], k);
      assert defs[..n][1..] == defs[1..][..n - 1];
    } else if n == 0 {
      assert defs[..0] == [];
    }
  }

  /** Symbols beyond those that the counts ask for do not matter. */
  lemma {:induction false} SpareSymbols(counts: seq<nat>, symbols: seq<nat>, more: seq<nat>, len: nat, code: nat)
    requires |counts| == 16 && 1 <= len <= 17 && Total(counts, len) <= |symbols|
    ensures CanonicalFrom(counts, symbols + more, len, code) == CanonicalFrom(counts, symbols, len, code)
    decreases |counts| + 1 - len
  {
    if len < 17 {
      var n := counts[len - 1];
      CanonicalSplit(counts, symbols, len, code);
      CanonicalSplit(counts, symbols + more, len, code);
      assert (symbols + more)[..n] == symbols[..n] && (symbols + more)[n..] == symbols[n..] + more;
      SpareSymbols(counts, symbols[n..], more, len + 1, 2 * (code + n));
    }
  }

  /** Where the definition of d starts, the loop reads exactly d. */
  lemma DefinitionRead(pre: seq<Byte>, d: TableDef, post: seq<Byte>)
    requires d.Valid()
    ensures var buffer, pos := pre + d.Bytes() + post, |pre|;
            && pos < |buffer| && buffer[pos] == d.id && DefinitionFits(buffer, pos + 1)
            && Definition(buffer, pos + 1) == d.Table()
            && DefinitionEnd(buffer, pos + 1) == |pre + d.Bytes()|
  {
    hide Total, CanonicalFrom;
    var buffer, pos := pre + d.Bytes() + post, |pre|;
    assert buffer[pos + 1..pos + 17] == d.counts;
    assert buffer[pos + 17..] == d.symbols + post;
    assert Counts(buffer, pos + 1) == d.counts && Symbols(buffer, pos + 1) == d.symbols + post;
    SpareSymbols(d.counts, d.symbols, post, 1, 0);
  }

  /** Reading back a written segment: each table is as its last definition says, or as it was. */
  lemma {:induction false} SegmentRead(pre: seq<Byte>, defs: TableDefs, post: seq<Byte>, es: seq<Entries>,
                                      buffer: seq<Byte>, limit: nat)
    requires |es| == 4 && defs != []
    requires buffer == pre + Segment(defs) + post && limit == |pre + Segment(defs)|
    ensures SegmentFits(buffer, |pre|, limit)
    ensures forall k :: 0 <= k < 4 ==> SegmentTables(buffer, |pre|, limit, es)[k] == TableAfter(es, defs, k)
    decreases |defs|
  {
    hide *;
    var mid := FirstRead(pre, defs, post, buffer, limit);
    var d := defs[0];
    var es' := es[TabOf(d.id) := d.Table()];
    if |defs| > 1 { SegmentRead(mid, defs[1..], post, es', buffer, limit); }
    FirstDefinition(buffer, |pre|, limit, d, |mid|, es);
    forall k | 0 <= k < 4 ensures SegmentTables(buffer, |pre|, limit, es)[k] == TableAfter(es, defs, k) {
      TableAfterFront(es, defs, k);
      if |defs| == 1 { NoMoreDefs(es', defs[1..], k); }
    }
  }

  /** The first definition of a written segment, and the part of the buffer up to its end. */
  lemma FirstRead(pre: seq<Byte>, defs: TableDefs, post: seq<Byte>, buffer: seq<Byte>, limit: nat)
    returns (mid: seq<Byte>)
    requires defs != [] && buffer == pre + Segment(defs) + post && limit == |pre + Segment(defs)|
    ensures var d := defs[0];
            && d.Valid() && TabOf(d.id) < 4 && |pre| < |mid| <= |buffer|
            && buffer[|pre|] == d.id && DefinitionFits(buffer, |pre| + 1)
            && Definition(buffer, |pre| + 1) == d.Table() && DefinitionEnd(buffer, |pre| + 1) == |mid|
    ensures buffer == mid + Segment(defs[1..]) + post && limit == |mid + Segment(defs[1..])|
    ensures |mid| < limit <==> |defs| > 1
  {
    hide Definition, DefinitionEnd, DefinitionFits, TableDef.Table, Segment;
    var d, rest := defs[0], Segment(defs[1..]);
    assert Segment(defs) == d.Bytes() + rest by { SegmentSplit(defs); }
    DefinitionRead(pre, d, rest + post);
    SegmentNotEmpty(defs[1..]);
    mid := pre + d.Bytes();
    assert buffer == mid + (rest + post);
  }

  lemma SegmentSplit(defs: TableDefs)
    requires defs != []
    ensures Segment(defs) == defs[0].Bytes() + Segment(defs[1..])
  {}

  lemma FirstDefinition(buffer: seq<Byte>, pos: nat, limit: nat, d: TableDef, end: nat, es: seq<Entries>)
    requires |es| == 4 && d.Valid() && pos < end <= |buffer|
    requires buffer[pos] == d.id && DefinitionFits(buffer, pos + 1)
    requires Definition(buffer, pos + 1) == d.Table() && DefinitionEnd(buffer, pos + 1) == end
    requires end < limit ==> SegmentFits(buffer, end, limit)
    ensures SegmentFits(buffer, pos, limit)
    ensures TabOf(d.id) < 4
    ensures SegmentTables(buffer, pos, limit, es) ==
            var es' := es[TabOf(d.id) := d.Table()];
            if end < limit then SegmentTables(buffer, end, limit, es') else es'
  {
    hide Definition, DefinitionEnd, DefinitionFits, TableDef.Table;
  }

  lemma NoMoreDefs(es: seq<Entries>, defs: TableDefs, k: nat)
    requires |es| == 4 && k < 4 && defs == []
    ensures TableAfter(es, defs, k) == es[k]
  {}

  lemma SegmentNotEmpty(defs: TableDefs)
    ensures Segment(defs) == [] <==> defs == []
  {}
}
