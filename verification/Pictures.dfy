/** A whole picture: its DHT segment fills the tables, and its scan is decoded with them. */
module Pictures {
  import opened BitStrings
  import opened HuffmanTables
  import opened LookupTables
  import opened DhtSegment
  import opened BlockCoding
  import opened ScanCoding
  import opened ScanLoop
  import opened WideTables

  /** The four tables after the definitions. */
  function TablesAfter(es: seq<Entries>, defs: TableDefs): (r: seq<Entries>)
    requires |es| == 4
    ensures |r| == 4 && forall k :: 0 <= k < 4 ==> r[k] == TableAfter(es, defs, k)
  {
    seq(4, k requires 0 <= k < 4 => TableAfter(es, defs, k))
  }

  /** A definition that meets the Kraft inequality; DC tables have sizes up to 16. */
  predicate Proper(d: TableDef) {
    d.Valid() && KraftSum(d.counts, 1) <= 65536
    && (TabOf(d.id) % 2 == 0 ==> forall i :: 0 <= i < |d.symbols| ==> d.symbols[i] < 17)
  }

  /** Every table is defined, and properly. */
  predicate Complete(defs: TableDefs) {
    && (forall i :: 0 <= i < |defs| ==> Proper(defs[i]))
    && forall k :: 0 <= k < 4 ==> Names(defs, k)
  }

  predicate Names(defs: TableDefs, k: nat) {
    exists i :: 0 <= i < |defs| && TabOf(defs[i].id) == k
  }

  ghost predicate GoodTable(es: Entries, k: nat) {
    Decodable(es) && SymbolsBelow(es, 256) && (k % 2 == 0 ==> SymbolsBelow(es, 17))
  }

  lemma ProperTable(d: TableDef)
    requires Proper(d)
    ensures GoodTable(d.Table(), TabOf(d.id))
  {
    hide CanonicalFrom, Total, KraftSum, Decodable;
    CanonicalDecodable(d.counts, d.symbols);
    forall k | 0 <= k < |d.Table()| ensures d.Table()[k].symbol == d.symbols[k] {
      CanonicalSymbol(d.counts, d.symbols, 1, 0, k);
    }
  }

  lemma {:induction false} DefinedTable(es: seq<Entries>, defs: TableDefs, k: nat)
    requires |es| == 4 && k < 4 && Names(defs, k) && forall i :: 0 <= i < |defs| ==> Proper(defs[i])
    ensures GoodTable(TableAfter(es, defs, k), k)
    decreases |defs|
  {
    hide Proper, GoodTable, TableDef.Table;
    var n := |defs| - 1;
    ProperTable(defs[n]);
    if TabOf(defs[n].id) != k {
      var i :| 0 <= i < |defs| && TabOf(defs[i].id) == k;
      assert defs[..n][i] == defs[i];
      DefinedTable(es, defs[..n], k);
    }
  }

  lemma CompleteTables(es: seq<Entries>, defs: TableDefs, tabDC: nat, tabAC: nat)
    requires |es| == 4 && Complete(defs) && tabDC < 4 && tabAC < 4 && tabDC % 2 == 0
    ensures TablesOf(TablesAfter(es, defs), tabDC, tabAC).Readable()
    ensures TablesOf(TablesAfter(es, defs), tabDC, tabAC).AllDecodable()
  {
    hide Proper, Names, TableAfter, Decodable, SymbolsBelow;
    forall k | 0 <= k < 4 ensures GoodTable(TablesAfter(es, defs)[k], k) { DefinedTable(es, defs, k); }
  }

  /** The DHT loop, on a written segment. */
  method ReadTables(tables: seq<LookupTable>, raw: seq<Byte>, dht: nat, length: nat, ghost before: seq<Entries>,
                    ghost defs: TableDefs)
    requires Apart(tables) && AllRepresent(tables, before) && |before| == 4
    requires defs != [] && length == |Segment(defs)| && dht <= |raw| && Segment(defs) <= raw[dht..]
    modifies Footprint(tables)
    ensures AllRepresent(tables, TablesAfter(before, defs))
  {
    hide *;
    ghost var buffer := raw[dht..];
    ghost var post := buffer[length..];
    assert buffer == [] + Segment(defs) + post && [] + Segment(defs) == Segment(defs);
    SegmentRead([], defs, post, before, buffer, length);
    assert TablesAfter(before, defs) == SegmentTables(buffer, 0, length, before);
    ParseSegment(tables, raw[dht..], length, before);
  }

  /**
    The whole decoder on a picture: whatever the tables held before, it reads the definitions of the DHT segment, and
    then the scan, exactly up to the first block that needs a symbol on the last row of its table.
   */
  method RestorePicture(tables: seq<LookupTable>, raw: seq<Byte>, dht: nat, length: nat, start: nat, cnt: nat,
                        tabDC: nat, tabAC: nat, ghost before: seq<Entries>, ghost defs: TableDefs,
                        ghost blocks: seq<seq<int>>, ghost pad: seq<bool>, ghost data: seq<Byte>, ghost more: seq<Byte>)
    returns (ok: bool, read: seq<seq<int>>, lastDC: seq<int>)
    requires Apart(tables) && AllRepresent(tables, before) && |before| == 4
    requires Complete(defs) && length == |Segment(defs)| && dht <= |raw| && Segment(defs) <= raw[dht..]
    requires tabDC < 4 && tabAC < 4 && tabDC % 2 == 0
    requires |blocks| == 4 * cnt
    requires EncodableScan(blocks, TablesOf(TablesAfter(before, defs), tabDC, tabAC), McuSchedule(cnt), [0, 0, 0])
    requires ScanSafe(data)
    requires BytesBits(data) ==
             EncodeScan(blocks, TablesOf(TablesAfter(before, defs), tabDC, tabAC), McuSchedule(cnt), [0, 0, 0]) + pad
    requires start <= |raw| && raw[start..] == Framed(data, more)
    modifies Footprint(tables)
    ensures Restored(ok, read, lastDC, blocks, TablesOf(TablesAfter(before, defs), tabDC, tabAC), McuSchedule(cnt))
  {
    hide *;
    SomeDefinition(defs);
    ReadTables(tables, raw, dht, length, before, defs);
    ghost var es := TablesAfter(before, defs);
    TablesShown(tables, es);
    CompleteTables(before, defs, tabDC, tabAC);
    ok, read, lastDC := RestoreFrame(raw, tables, start, cnt, tabDC, tabAC, es, blocks, pad, data, more);
  }

  lemma SomeDefinition(defs: TableDefs)
    requires Complete(defs)
    ensures defs != []
  {
    assert Names(defs, 0);
  }

  lemma TablesShown(tables: seq<LookupTable>, es: seq<Entries>)
    requires AllRepresent(tables, es)
    ensures |tables| == |es| == 4 && forall k :: 0 <= k < 4 ==> tables[k].Represents(es[k])
  {}

  // ----- tables with which every picture comes back -----

  /** Ids 0 and 1 are DC tables, 16 and 17 AC tables. */
  function WideDefs(m: nat): (defs: seq<TableDef>)
    requires m <= 9
    ensures |defs| == 4
  {
    [WideDC(0, m), WideAC(16, m), WideDC(1, m), WideAC(17, m)]
  }

  lemma WideDefsComplete(m: nat)
    requires m <= 9
    ensures forall i :: 0 <= i < 4 ==> WideDefs(m)[i].Valid() && TabOf(WideDefs(m)[i].id) == i
    ensures Complete(WideDefs(m))
  {
    hide TableDef.Valid, KraftSum, AllRuns, AllSizes, TableDef.Table;
    WideDCHoldsSizes(0, m);
    WideACHoldsRuns(16, m);
    WideDCHoldsSizes(1, m);
    WideACHoldsRuns(17, m);
    var defs: TableDefs := WideDefs(m);
    forall k | 0 <= k < 4 ensures Names(defs, k) { assert TabOf(defs[k].id) == k; }
  }

  lemma {:induction false} LastNamed(es: seq<Entries>, defs: TableDefs, k: nat)
    requires |es| == 4 && k < |defs| == 4 && forall i :: 0 <= i < 4 ==> TabOf(defs[i].id) == i
    ensures TableAfter(es, defs, k) == defs[k].Table()
  {
    hide TableDef.Table;
    LastNamedFrom(es, defs, k, 4);
    assert defs[..4] == defs;
  }

  lemma {:induction false} LastNamedFrom(es: seq<Entries>, defs: TableDefs, k: nat, n: nat)
    requires |es| == 4 && k < n <= |defs| == 4 && forall i :: 0 <= i < 4 ==> TabOf(defs[i].id) == i
    ensures TableAfter(es, defs[..n], k) == defs[k].Table()
  {
    hide TableDef.Table;
    assert defs[..n][..n - 1] == defs[..n - 1] && defs[..n][n - 1] == defs[n - 1];
    if k < n - 1 { LastNamedFrom(es, defs, k, n - 1); }
  }

  /**
    With these definitions every list of blocks with coefficients of at most m bits, m up to 9, can be encoded, and
    RestorePicture brings it back whole.
   */
  lemma WidePictureRestorable(es: seq<Entries>, m: nat, blocks: seq<seq<int>>, cnt: nat)
    requires |es| == 4 && m <= 9 && |blocks| == 4 * cnt
    requires forall i :: 0 <= i < |blocks| ==> SmallEnough(blocks[i], m)
    ensures forall i :: 0 <= i < 4 ==> WideDefs(m)[i].Valid()
    ensures Complete(WideDefs(m))
    ensures var t := TablesOf(TablesAfter(es, WideDefs(m)), 0, 1);
            && EncodableScan(blocks, t, McuSchedule(cnt), [0, 0, 0])
            && RestorableFront(blocks, t, McuSchedule(cnt), [0, 0, 0]) == |blocks|
  {
    WideDefsComplete(m);
    hide Complete, TableDef.Valid, AllRuns, AllSizes, KraftSum, TableDef.Table, McuSchedule, EncodableScan,
      RestorableFront, SmallEnough, TableAfter;
    var defs: TableDefs := WideDefs(m);
    forall k | 0 <= k < 4 ensures TableAfter(es, defs, k) == defs[k].Table() { LastNamed(es, defs, k); }
    WideDCHoldsSizes(0, m);
    WideACHoldsRuns(16, m);
    WideDCHoldsSizes(1, m);
    WideACHoldsRuns(17, m);
    EveryScanRestorable(blocks, TablesOf(TablesAfter(es, defs), 0, 1), McuSchedule(cnt), [0, 0, 0], m);
  }
}
