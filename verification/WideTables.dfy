/**
  How many run/size symbols the decoder can read: its tables have 162 rows, and it never finds the symbol of the last
  row that is in use.
 */
module WideTables {
  import opened BitStrings
  import opened HuffmanTables
  import opened LookupTables
  import opened DhtSegment
  import opened BlockCoding

  // ----- what AllRuns takes -----

  ghost predicate Distinct(s: seq<nat>) {
    forall i, j :: 0 <= i < j < |s| ==> s[i] != s[j]
  }

  lemma {:induction false} Pigeonhole(s: seq<nat>, n: nat)
    requires Distinct(s) && forall i :: 0 <= i < |s| ==> s[i] < n
    ensures |s| <= n
    decreases n
  {
    if s != [] {
      assert s[0] < n;
      if i :| 0 <= i < |s| && s[i] == n - 1 {
        Pigeonhole(s[..i] + s[i + 1..], n - 1);
      } else {
        Pigeonhole(s, n - 1);
      }
    }
  }

  /** Every run with every size up to m. */
  function RunSymbols(m: nat): (s: seq<nat>)
    ensures |s| == 16 * m
  {
    seq(16 * m, i requires 0 <= i => 16 * (i % 16) + i / 16 + 1)
  }

  /** ... the end of a block, and 16 zeros. */
  function ReadSymbols(m: nat): (s: seq<nat>)
    ensures |s| == 16 * m + 2
  {
    RunSymbols(m) + [EOB, ZRL]
  }

  lemma RunSymbolAt(m: nat, i: nat)
    requires m <= 15 && i < 16 * m
    ensures RunSymbols(m)[i] % 16 == i / 16 + 1 <= m
    ensures RunSymbols(m)[i] / 16 == i % 16 && RunSymbols(m)[i] < 256
  {
    SymbolParts(i % 16, i / 16 + 1);
  }

  lemma ReadSymbolsDistinct(m: nat)
    requires m <= 15
    ensures Distinct(ReadSymbols(m))
  {
    hide RunSymbols;
    forall i, j | 0 <= i < j < 16 * m + 2 ensures ReadSymbols(m)[i] != ReadSymbols(m)[j] {
      if i < 16 * m { RunSymbolAt(m, i); }
      if j < 16 * m { RunSymbolAt(m, j); }
    }
  }

  lemma ReadSymbolUsable(ac: Entries, m: nat, i: nat)
    requires m <= 15 && AllRuns(ac, m) && i < 16 * m + 2
    ensures Usable(ac, ReadSymbols(m)[i])
  {
    hide RunSymbols, RowOf;
    if i < 16 * m { RunSymbolAt(m, i); }
  }

  /** One row for each of these symbols, and the last row, which is never found. */
  lemma RunsTakeRows(ac: Entries, m: nat)
    requires m <= 15 && AllRuns(ac, m)
    ensures |ac| >= 16 * m + 3
  {
    hide AllRuns, ReadSymbols, RowFrom;
    var symbols := ReadSymbols(m);
    var rows := seq(|symbols|, i requires 0 <= i < |symbols| => RowOf(ac, symbols[i]));
    ReadSymbolsDistinct(m);
    forall i | 0 <= i < |rows| ensures rows[i] < |ac| - 1 && ac[rows[i]].symbol == symbols[i] {
      ReadSymbolUsable(ac, m, i);
    }
    ReadSymbolUsable(ac, m, 0);
    Pigeonhole(rows, |ac| - 1);
  }

  /** No table in the arrays of the decoder can hold all the symbols of a baseline scan so that they are found. */
  lemma BaselineNeverHeld(t: LookupTable, ac: Entries)
    requires t.Represents(ac)
    ensures !AllRuns(ac, 10)
  {
    if AllRuns(ac, 10) { RunsTakeRows(ac, 10); }
  }

  // ----- tables with codes of 8 bits -----

  function EightBitCounts(n: Byte): (c: seq<Byte>)
    ensures |c| == 16 && forall i :: 0 <= i < 16 ==> c[i] == if i == 7 then n else 0
  {
    seq(16, i => if i == 7 then n else 0)
  }

  lemma {:induction false} EightBitTotal(n: Byte, len: nat)
    requires 1 <= len <= 17
    ensures Total(EightBitCounts(n), len) == if len <= 8 then n else 0
    decreases 17 - len
  {
    if len < 17 { EightBitTotal(n, len + 1); }
  }

  lemma {:induction false} EightBitSum(n: Byte, len: nat)
    requires 1 <= len <= 17
    ensures KraftSum(EightBitCounts(n), len) == if len <= 8 then Scale(n, 8) else 0
    decreases 17 - len
  {
    if len < 17 {
      EightBitSum(n, len + 1);
      ScaleAdd(0, 0, 16 - len);
    }
  }

  lemma EightBitFits(n: Byte)
    ensures KraftSum(EightBitCounts(n), 1) <= 65536
  {
    hide *;
    EightBitSum(n, 1);
    ScaleOrder(n, 256, 8);
    Pow2Values();
    EightBitSpace();
  }

  lemma EightBitSpace()
    ensures Scale(256, 8) == 65536
  {
    Pow2Values();
    ScaleScale(1, 8, 8);
  }

  lemma {:induction false} CanonicalSymbol(counts: seq<nat>, symbols: seq<nat>, len: nat, code: nat, k: nat)
    requires |counts| == 16 && 1 <= len <= 17 && Total(counts, len) <= |symbols| && k < Total(counts, len)
    ensures CanonicalFrom(counts, symbols, len, code)[k].symbol == symbols[k]
    decreases 17 - len
  {
    var n := counts[len - 1];
    CanonicalSplit(counts, symbols, len, code);
    hide CanonicalFrom;
    if k < n {
      assert Row(code, len, symbols[..n])[k] == Entry(code + k, len, symbols[k]);
    } else {
      CanonicalSymbol(counts, symbols[n..], len + 1, 2 * (code + n), k - n);
    }
  }

  lemma {:induction false} RowAtMost(es: Entries, symbol: nat, i: nat, k: nat)
    requires i <= k < |es| && es[k].symbol == symbol
    ensures RowFrom(es, symbol, i) <= k
    decreases k - i
  {
    if i < k && es[i].symbol != symbol { RowAtMost(es, symbol, i + 1, k); }
  }

  /** A definition with 8-bit codes for the given symbols. */
  function EightBitTable(id: Byte, symbols: seq<Byte>): TableDef
    requires |symbols| < 256
  {
    TableDef(id, EightBitCounts(|symbols|), symbols)
  }

  lemma EightBitValid(id: Byte, symbols: seq<Byte>)
    requires TabOf(id) < 4 && |symbols| <= MAX_CODES
    ensures EightBitTable(id, symbols).Valid() && KraftSum(EightBitTable(id, symbols).counts, 1) <= 65536
    ensures |EightBitTable(id, symbols).Table()| == |symbols|
    ensures forall k :: 0 <= k < |symbols| ==> EightBitTable(id, symbols).Table()[k].symbol == symbols[k]
  {
    hide Total, CanonicalFrom, KraftSum;
    EightBitTotal(|symbols|, 1);
    EightBitFits(|symbols|);
    forall k | 0 <= k < |symbols| ensures EightBitTable(id, symbols).Table()[k].symbol == symbols[k] {
      CanonicalSymbol(EightBitCounts(|symbols|), symbols, 1, 0, k);
    }
  }

  lemma EightBitUsable(id: Byte, symbols: seq<Byte>, k: nat)
    requires TabOf(id) < 4 && |symbols| <= MAX_CODES && k + 1 < |symbols|
    ensures EightBitTable(id, symbols).Valid() && Usable(EightBitTable(id, symbols).Table(), symbols[k])
  {
    EightBitValid(id, symbols);
    hide TableDef.Valid, TableDef.Table, EightBitTable;
    RowAtMost(EightBitTable(id, symbols).Table(), symbols[k], 0, k);
  }

  // ----- the widest tables that there is room for -----

  function Bytes(s: seq<nat>): (b: seq<Byte>)
    requires forall i :: 0 <= i < |s| ==> s[i] < 256
    ensures b == s
  {
    s
  }

  lemma ReadSymbolsBelow(m: nat)
    requires m <= 15
    ensures forall i :: 0 <= i < |ReadSymbols(m)| ==> ReadSymbols(m)[i] < 256
  {
    hide RunSymbols;
    forall i | 0 <= i < 16 * m ensures RunSymbols(m)[i] < 256 { RunSymbolAt(m, i); }
  }

  /** The symbol of the last row is never found: here it is one that no block needs. */
  const SPARE := 16

  function WideAC(id: Byte, m: nat): TableDef
    requires m <= 9
  {
    ReadSymbolsBelow(m);
    EightBitTable(id, Bytes(ReadSymbols(m)) + [SPARE])
  }

  function WideDC(id: Byte, m: nat): TableDef
    requires m <= 9
  {
    EightBitTable(id, seq(m + 2, i requires 0 <= i < m + 2 => i) + [SPARE])
  }

  /** A symbol with a size from 1 to m is among the run symbols. */
  lemma RunSymbolIndex(m: nat, symbol: nat) returns (i: nat)
    requires m <= 15 && symbol < 256 && 1 <= symbol % 16 <= m
    ensures i < 16 * m && RunSymbols(m)[i] == symbol
  {
    i := 16 * (symbol % 16 - 1) + symbol / 16;
    assert i % 16 == symbol / 16 && i / 16 == symbol % 16 - 1;
  }

  lemma WideACHoldsRuns(id: Byte, m: nat)
    requires TabOf(id) < 4 && m <= 9
    ensures WideAC(id, m).Valid() && KraftSum(WideAC(id, m).counts, 1) <= 65536
    ensures AllRuns(WideAC(id, m).Table(), m) && SymbolsBelow(WideAC(id, m).Table(), 256)
  {
    ReadSymbolsBelow(m);
    var symbols := Bytes(ReadSymbols(m)) + [SPARE];
    EightBitValid(id, symbols);
    hide RunSymbols, TableDef.Valid, TableDef.Table, EightBitTable, KraftSum, OnRow;
    var es := EightBitTable(id, symbols).Table();
    EightBitUsable(id, symbols, 16 * m);
    EightBitUsable(id, symbols, 16 * m + 1);
    forall symbol: nat | symbol < 256 && 1 <= symbol % 16 <= m ensures Usable(es, symbol) {
      var i := RunSymbolIndex(m, symbol);
      assert symbols[i] == symbol;
      EightBitUsable(id, symbols, i);
    }
  }

  lemma WideDCHoldsSizes(id: Byte, m: nat)
    requires TabOf(id) < 4 && m <= 9
    ensures WideDC(id, m).Valid() && KraftSum(WideDC(id, m).counts, 1) <= 65536
    ensures AllSizes(WideDC(id, m).Table(), m + 1) && SymbolsBelow(WideDC(id, m).Table(), 17)
  {
    var symbols: seq<Byte> := seq(m + 2, i requires 0 <= i < m + 2 => i) + [SPARE];
    EightBitValid(id, symbols);
    hide TableDef.Valid, TableDef.Table, EightBitTable, KraftSum, OnRow;
    var es := EightBitTable(id, symbols).Table();
    forall s: nat | s <= m + 1 ensures Usable(es, s) { EightBitUsable(id, symbols, s); }
  }

  /** A definition whose table the decoder can use for all coefficients of at most m bits. */
  ghost predicate Serves(d: TableDef, id: Byte, m: nat) {
    d.Valid() && d.id == id && KraftSum(d.counts, 1) <= 65536 && AllRuns(d.Table(), m)
  }

  /**
    Exactly for which coefficients there is a table with which every block can be restored: for up to 9 bits. The
    baseline process of ITU-T T.81 goes up to 10.
   */
  lemma WideTableIff(id: Byte, m: nat)
    requires TabOf(id) < 4 && m <= 15
    ensures (exists d :: Serves(d, id, m)) <==> m <= 9
  {
    hide AllRuns, KraftSum;
    if m <= 9 {
      WideACHoldsRuns(id, m);
      assert Serves(WideAC(id, m), id, m);
    } else {
      forall d ensures !Serves(d, id, m) {
        if Serves(d, id, m) { RunsTakeRows(d.Table(), m); }
      }
    }
  }
}
