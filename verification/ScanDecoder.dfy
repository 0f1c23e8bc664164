/**
  The entropy decoder of the scan loop: a 32-bit window on the scan bytes, refilled byte by byte,
  from which codes and magnitudes are taken off the top.
 */
module ScanDecoder {
  import opened BitStrings
  import opened Collections
  import opened HuffmanTables
  import opened Word32
  import opened LookupTables
  import opened BlockCoding
  import opened ScanCoding

  const MASK: seq<bv32> := [0x0, 0x1, 0x3, 0x7, 0xf, 0x1f, 0x3f, 0x7f, 0xff, 0x1ff, 0x3ff, 0x7ff, 0xfff,
                            0x1fff, 0x3fff, 0x7fff, 0xffff]

  class Decoder {
    const raw: seq<Byte>
    const tables: seq<LookupTable>
    ghost const tableObjects: set<object>
    var Gpos: nat
    var data: bv32
    var bitlen: int

    /** The window holds `bitlen` bits, and below them nothing. */
    ghost predicate WindowOk()
      reads this
    {
      Gpos <= |raw| && 0 <= bitlen <= 31 && Clean(data, bitlen)
    }

    /** The bits that are still to be decoded. */
    ghost function Stream(): seq<bool>
      requires WindowOk()
      reads this
    {
      StreamOf(data, bitlen, raw[Gpos..])
    }

    /** Table k represents entries es[k]. */
    ghost predicate Knows(es: seq<Entries>)
      reads tableObjects
    {
      && |tables| == |es| == 4 && this !in tableObjects
      && forall k :: 0 <= k < 4 ==> tables[k].Repr() <= tableObjects && tables[k].Represents(es[k])
    }

    /** Starts on the scan bytes at `start`; the first two go into the window as they are. */
    constructor (raw: seq<Byte>, tables: seq<LookupTable>, start: nat)
      requires start + 2 <= |raw|
      ensures this.raw == raw && this.tables == tables
      ensures tableObjects == (set t, o | t in tables && o in t.Repr() :: o) && this !in tableObjects
      ensures WindowOk() && bitlen == 16
      ensures Stream() == BytesBits(Loaded(raw[start..]))
    {
      this.raw := raw;
      this.tables := tables;
      tableObjects := set t, o | t in tables && o in t.Repr() :: o;
      var d := Shl(Word(raw[start]), 24);
      var w := Shl(Word(raw[start + 1]), 16);
      data := d | w;
      bitlen := 16;
      Gpos := start + 2;
      new;
      hide Shl, Word, Bits, Bit, NatBits, Delivered;
      LoadTwo(raw, start, d, w, data);
    }

    method FGetc() returns (c: Byte)
      requires Gpos < |raw|
      modifies this`Gpos
      ensures c == raw[old(Gpos)] && Gpos == old(Gpos) + 1
    {
      c := raw[Gpos];
      Gpos := Gpos + 1;
    }

    /** Appends a byte below the bits of the window. */
    method Put(uc: Byte)
      requires 0 <= bitlen <= 23 && Clean(data, bitlen)
      modifies this`data, this`bitlen
      ensures bitlen == old(bitlen) + 8 && Clean(data, bitlen)
      ensures Bits(data)[..bitlen] == Bits(old(data))[..old(bitlen)] + NatBits(uc, 8)
    {
      hide Bits, Shl, Word, NatBits, Clean;
      ghost var n, d := bitlen, data;
      var w := Shl(Word(uc), 24 - bitlen);
      data := data | w;
      bitlen := bitlen + 8;
      AddByte(d, w, data, uc, n, 24 - n);
    }

    /** The refill loop: it takes bytes until the window holds 16 bits, and the bits to be decoded stay the same. */
    method Refill()
      requires WindowOk() && |Stream()| >= AHEAD
      modifies this`Gpos, this`data, this`bitlen
      ensures WindowOk() && 16 <= bitlen <= 31
      ensures Stream() == old(Stream())
      ensures old(bitlen) >= 16 ==> Gpos == old(Gpos) && data == old(data) && bitlen == old(bitlen)
    {
      hide *;
      while bitlen < 16
        invariant WindowOk()
        invariant Stream() == old(Stream())
        invariant old(bitlen) >= 16 ==> Gpos == old(Gpos) && data == old(data) && bitlen == old(bitlen)
      {
        WindowShape();
        ghost var d0, b0, rest := data, bitlen, raw[Gpos..];
        EnoughRaw(d0, b0, rest);
        var uc := FGetc();
        Put(uc);
        if uc == 0xff {
          uc := FGetc();
          if uc == 0 {
            uc := FGetc();
          }
          Put(uc);
          TakePair(rest, uc, raw[Gpos..]);
          StreamPair(d0, b0, data, bitlen, uc, rest, raw[Gpos..]);
        } else {
          assert rest == [uc] + raw[Gpos..];
          TakeOne(uc, raw[Gpos..]);
          StreamOne(d0, b0, data, bitlen, uc, rest, raw[Gpos..]);
        }
        ShapeWindow();
      }
      WindowShape();
    }

    /** Drops the top n bits of the window. */
    method Consume(n: nat)
      requires WindowOk() && n <= bitlen
      modifies this`data, this`bitlen
      ensures WindowOk() && bitlen == old(bitlen) - n
      ensures n <= |old(Stream())| && Stream() == old(Stream())[n..]
    {
      hide *;
      WindowShape();
      ghost var d, b, rest := data, bitlen, raw[Gpos..];
      StreamTop(d, b, rest, n);
      data := Shl(data, n);
      bitlen := bitlen - n;
      DropTop(d, b, n, bitlen, rest);
      ShapeWindow();
    }

    /** The comparison in the search loop tests whether the bits to be decoded start with the code of row ind. */
    method RowMatches(t: LookupTable, ind: nat, ghost rows: Entries) returns (hit: bool)
      requires WindowOk() && bitlen >= 16 && t.Represents(rows) && ind < MAX_CODES
      ensures ind < |rows| ==> hit == Matches(rows[ind], Stream())
    {
      hide *;
      RowArrays(t, rows, ind);
      var mask, bits := t.mask[ind], t.bits[ind];
      hit := And(data, mask) == bits;
      if ind < |rows| {
        RowWords(t, ind, rows, bits, mask);
        WindowShape();
        StreamTop(data, bitlen, raw[Gpos..], rows[ind].len);
        RowTest(rows[ind], data, mask, bits, Stream());
      }
    }

    /** The linear search for the code at the top of the window. */
    method Search(t: LookupTable, ghost rows: Entries) returns (res: int, bitsUsed: nat)
      requires WindowOk() && bitlen >= 16 && t.Represents(rows)
      ensures match LookUp(rows, Stream())
              case None => res == -1
              case Some(e) => res == e.symbol && bitsUsed == e.len
    {
      ghost var bits := Stream();
      var ind, done := 0, false;
      ghost var hit := 0;
      bitsUsed := 0;
      res := -1;
      TableShape(t, rows);
      hide *;
      while !done
        invariant !done ==> (ind < |rows| || ind == 0) && FindFrom(rows, bits, 0) == FindFrom(rows, bits, ind)
        invariant done ==> hit + 1 < |rows| && FindFrom(rows, bits, 0) == hit
        invariant done ==> res == rows[hit].symbol && bitsUsed == rows[hit].len
        decreases |rows| - ind, !done
      {
        done := RowMatches(t, ind, rows);
        if ind < |rows| { StepFind(rows, bits, ind); }
        if done {
          RowFields(t, ind, rows);
          res := t.code[ind];
          bitsUsed := t.bitlen[ind];
          hit := ind;
        }
        ind := ind + 1;
        if ind >= t.size {
          NotFound(rows, bits);
          return -1, bitsUsed;
        }
      }
      Found(rows, bits, hit);
    }

    /** One Huffman-coded symbol, or -1. */
    method ReadXC(tab: nat, ghost es: seq<Entries>) returns (res: int)
      requires WindowOk() && Knows(es) && tab < 4
      requires EnoughCode(Stream(), es[tab])
      modifies this`Gpos, this`data, this`bitlen
      ensures WindowOk() && Knows(es) && 16 <= bitlen <= 31
      ensures XCResult(es[tab], old(Stream()), res, Stream())
    {
      hide LookUp, Clean, StreamOf;
      Refill();
      var bitsUsed: nat;
      res, bitsUsed := Search(tables[tab], es[tab]);
      if res < 0 {
        return -1;
      }
      Consume(bitsUsed);
      Refill();
    }

    /** Takes the next n bits off as a number. */
    method TakeBits(n: nat) returns (x: int)
      requires WindowOk() && n <= 16 <= bitlen
      modifies this`data, this`bitlen
      ensures WindowOk() && bitlen == old(bitlen) - n
      ensures n <= |old(Stream())| && x == BitsValue(old(Stream())[..n])
      ensures Stream() == old(Stream())[n..]
    {
      hide *;
      WindowShape();
      MaskLength();
      var k := 32 - n;
      TopOfStream(data, bitlen, raw[Gpos..], n, k);
      x := WordValue(Sar(data, k) & MASK[n]);
      Consume(n);
    }

    lemma KnownTables(es: seq<Entries>)
      requires Knows(es)
      ensures |tables| == |es| == 4 && this !in tableObjects
    {}

    lemma WindowShape()
      requires WindowOk()
      ensures Gpos <= |raw| && 0 <= bitlen <= 31 && Clean(data, bitlen)
      ensures Stream() == StreamOf(data, bitlen, raw[Gpos..])
    {
      hide Clean, StreamOf;
    }

    lemma ShapeWindow()
      requires Gpos <= |raw| && 0 <= bitlen <= 31 && Clean(data, bitlen)
      ensures WindowOk() && Stream() == StreamOf(data, bitlen, raw[Gpos..])
    {
      hide Clean, StreamOf;
    }

    /** Puts the coefficient in the next `val` bits at table[k]. */
    method StoreCoefficient(table: array<int>, k: nat, val: nat)
      requires WindowOk() && val <= 16 <= bitlen && table !in tableObjects && k < table.Length
      modifies this`data, this`bitlen, table
      ensures WindowOk() && bitlen == old(bitlen) - val
      ensures val <= |old(Stream())| && Stream() == old(Stream())[val..]
      ensures table[..] == old(table[..])[k := Extend(BitsValue(old(Stream())[..val]), val)]
    {
      hide *;
      var x := TakeBits(val);
      table[k] := Extend(x, val);
    }

    /** One turn of the AC loop of `readTable`. */
    method ReadACSymbol(tab: nat, table: array<int>, j: nat, ghost es: seq<Entries>) returns (turn: Turn, k: nat)
      requires WindowOk() && Knows(es) && tab < 4 && SymbolsBelow(es[tab], 256)
      requires table.Length == TABLE_SIZE && table !in tableObjects && j < 63
      requires EnoughAC(Stream(), es[tab], j)
      modifies this`Gpos, this`data, this`bitlen, table
      ensures WindowOk() && Knows(es) && bitlen >= 1
      ensures match turn
              case Failed => Ends(old(Stream()), es[tab], old(table[..]), j, AcResult(false, table[..], k, Stream()))
              case EndOfBlock => Ends(old(Stream()), es[tab], old(table[..]), j, AcResult(true, table[..], k, Stream()))
              case More => Moves(old(Stream()), es[tab], old(table[..]), j, Stream(), table[..], k) && j < k
    {
      hide *;
      KnownTables(es);
      ghost var bits, before, ac := Stream(), table[..], es[tab];
      EnoughForSymbol(bits, ac, j);
      turn, k := More, j;
      var comb := ReadXC(tab, es);
      ghost var b := Stream();
      SymbolRead(ac, bits, comb, b);
      SymbolBound(ac, bits, comb, b, 256);
      if comb < 0 {
        NoSymbol(bits, ac, before, j);
        return Failed, j;
      }
      var val := comb % 16;
      var repeat := comb / 16;
      if val == 0 {
        if repeat == 15 {
          k := j + 16;
        } else {
          turn := EndOfBlock;
        }
        ZeroSymbol(bits, ac, before, j, b, comb, k);
      } else {
        k := j + repeat + 1;
        StoreCoefficient(table, k, val);
        CoefficientTurn(bits, ac, before, j, b, comb, val, k, Stream(), table[..]);
      }
    }

    /** The AC loop of `readTable`, from coefficient 0 on. */
    method ReadAC(tab: nat, table: array<int>, ghost es: seq<Entries>) returns (ok: bool, j: nat)
      requires WindowOk() && Knows(es) && tab < 4 && SymbolsBelow(es[tab], 256)
      requires table.Length == TABLE_SIZE && table !in tableObjects
      requires EnoughAC(Stream(), es[tab], 0)
      modifies this`Gpos, this`data, this`bitlen, table
      ensures WindowOk() && Knows(es) && bitlen >= 1
      ensures AcResult(ok, table[..], j, Stream()) == DecodeAC(old(Stream()), es[tab], old(table[..]), 0)
    {
      ghost var bits, before, ac := Stream(), table[..], es[tab];
      StartMoves(bits, ac, before);
      hide *;
      ghost var fin := AcResult(true, before, 0, bits);
      var eob := false;
      j := 0;
      ok := true;
      while j < 63 && !eob && ok
        invariant WindowOk() && Knows(es)
        invariant (j == 0 && ok && !eob) || bitlen >= 1
        invariant if ok && !eob then Moves(bits, ac, before, 0, Stream(), table[..], j)
                  else Ends(bits, ac, before, 0, fin) && fin == AcResult(ok, table[..], j, Stream())
        decreases if eob || !ok then 0 else TABLE_SIZE - j
      {
        ghost var rest, after := Stream(), table[..];
        MovesBounds(bits, ac, before, 0, rest, after, j);
        var turn, k := ReadACSymbol(tab, table, j, es);
        if turn.More? {
          MovesOn(bits, ac, before, 0, rest, after, j, Stream(), table[..], k);
          MovesBounds(rest, ac, after, j, Stream(), table[..], k);
        } else {
          fin := AcResult(turn.EndOfBlock?, table[..], k, Stream());
          MovesToEnd(bits, ac, before, 0, rest, after, j, fin);
        }
        j := k;
        eob := turn.EndOfBlock?;
        ok := !turn.Failed?;
      }
      if ok && !eob {
        fin := AcResult(true, table[..], j, Stream());
        MovesPastEnd(bits, ac, before, 0, Stream(), table[..], j);
      }
      EndsResult(bits, ac, before, 0, fin);
    }

    /** The clearing loop of `readTable`. */
    static method ClearTable(table: array<int>)
      requires table.Length == TABLE_SIZE
      modifies table
      ensures table[..] == Cleared(old(table[..]))
    {
      ghost var initial := table[..];
      for j := 0 to 64
        invariant forall i :: 0 <= i < TABLE_SIZE ==> table[i] == if i < j then 0 else initial[i]
      {
        table[j] := 0;
      }
      ClearedTable(initial, table[..]);
    }

    /** Reads one block into `table`; the answer is 0 or -1, and `dc` is the new predictor. */
    method ReadTable(tabDC: nat, tabAC: nat, lastDC: int, table: array<int>, ghost es: seq<Entries>)
      returns (r: int, dc: int)
      requires WindowOk() && Knows(es) && tabDC < 4 && tabAC < 4 && TablesReadable(es[tabDC], es[tabAC])
      requires table.Length == TABLE_SIZE && table !in tableObjects
      requires EnoughBlock(Stream(), es[tabDC], es[tabAC])
      modifies this`Gpos, this`data, this`bitlen, table
      ensures WindowOk() && Knows(es) && bitlen >= 1 && (r == 0 || r == -1)
      ensures DecodeBlock(old(Stream()), es[tabDC], es[tabAC], lastDC, old(table[..]))
              == BlockResult(r == 0, table[..], dc, Stream())
    {
      hide *;
      KnownTables(es);
      ghost var bits, initial := Stream(), table[..];
      ghost var dcEs, acEs := es[tabDC], es[tabAC];
      EnoughForDC(bits, dcEs, acEs);
      ClearTable(table);
      var sizeVal := ReadXC(tabDC, es);
      ghost var b := Stream();
      SymbolRead(dcEs, bits, sizeVal, b);
      if sizeVal < 0 {
        NoDC(bits, dcEs, acEs, lastDC, initial);
        return -1, lastDC;
      }
      DCBound(bits, dcEs, acEs, sizeVal, b);
      var x := TakeBits(sizeVal);
      dc := Extend(x, sizeVal) + lastDC;
      table[0] := dc;
      ghost var after, more := table[..], Stream();
      var ok, j := ReadAC(tabAC, table, es);
      WithDC(bits, dcEs, acEs, lastDC, initial, sizeVal, b, dc, more, after, AcResult(ok, table[..], j, Stream()));
      r := if ok && j <= 63 then 0 else -1;
    }
  }

  lemma EnoughForDC(bits: seq<bool>, dc: Entries, ac: Entries)
    requires TablesReadable(dc, ac) && EnoughBlock(bits, dc, ac)
    ensures EnoughCode(bits, dc) && TABLE_SIZE == 128
  {
    hide EnoughAC;
  }

  lemma ClearedTable(initial: seq<int>, t: seq<int>)
    requires |initial| == |t| == TABLE_SIZE
    requires forall i :: 0 <= i < TABLE_SIZE ==> t[i] == if i < 64 then 0 else initial[i]
    ensures t == Cleared(initial)
  {
    forall i | 0 <= i < TABLE_SIZE ensures t[i] == Cleared(initial)[i] {
      if i >= 64 { assert Cleared(initial)[64..][i - 64] == initial[64..][i - 64]; }
    }
  }

  lemma NoDC(bits: seq<bool>, dc: Entries, ac: Entries, pred: int, initial: seq<int>)
    requires |initial| == TABLE_SIZE && TablesReadable(dc, ac) && EnoughBlock(bits, dc, ac)
    requires |bits| >= 16 && LookUp(dc, bits) == None
    ensures DecodeBlock(bits, dc, ac, pred, initial) == BlockResult(false, Cleared(initial), pred, bits)
  {}

  lemma DCBound(bits: seq<bool>, dc: Entries, ac: Entries, size: int, b: seq<bool>)
    requires TablesReadable(dc, ac) && EnoughBlock(bits, dc, ac) && size >= 0 && Reads(dc, bits, size, b)
    ensures size <= 16 <= |b| && SymbolsBelow(ac, 256) && EnoughAC(b[size..], ac, 0)
  {
    hide EnoughAC;
  }

  lemma WithDC(bits: seq<bool>, dc: Entries, ac: Entries, pred: int, initial: seq<int>, size: nat, b: seq<bool>,
               value: int, more: seq<bool>, after: seq<int>, r: AcResult)
    requires |initial| == TABLE_SIZE && TablesReadable(dc, ac) && EnoughBlock(bits, dc, ac)
    requires Reads(dc, bits, size, b) && size <= 16 <= |b|
    requires value == Extend(BitsValue(b[..size]), size) + pred && more == b[size..]
    requires after == Cleared(initial)[0 := value] && EnoughAC(more, ac, 0)
    requires r == DecodeAC(more, ac, after, 0)
    ensures DecodeBlock(bits, dc, ac, pred, initial) == BlockResult(r.ok && r.j <= 63, r.table, value, r.rest)
  {
    hide DecodeAC, EnoughAC, LookUp, BitsValue, Extend, SymbolsBelow;
  }

  /** `res` is the symbol whose code `bits` start with, and `rest` are the bits after it; or nothing is consumed. */
  ghost predicate XCResult(es: Entries, bits: seq<bool>, res: int, rest: seq<bool>) {
    && |bits| >= 16 && |rest| >= 16
    && match LookUp(es, bits)
       case None => res == -1 && rest == bits
       case Some(e) => res == e.symbol && e.len <= |bits| && rest == bits[e.len..]
  }

  lemma SymbolRead(es: Entries, bits: seq<bool>, res: int, rest: seq<bool>)
    requires XCResult(es, bits, res, rest)
    ensures |bits| >= 16 && |rest| >= 16
    ensures res < 0 ==> LookUp(es, bits) == None && rest == bits
    ensures res >= 0 ==> Reads(es, bits, res, rest)
  {}

  lemma SymbolBound(es: Entries, bits: seq<bool>, res: int, rest: seq<bool>, n: nat)
    requires XCResult(es, bits, res, rest) && SymbolsBelow(es, n)
    ensures res < n
  {}

  /** How a turn of the AC loop ends. */
  datatype Turn = Failed | EndOfBlock | More

  /** Decoding stops at coefficient j. */
  ghost predicate Ends(bits: seq<bool>, ac: Entries, table: seq<int>, j: nat, r: AcResult) {
    && |table| == TABLE_SIZE && SymbolsBelow(ac, 256) && j <= 78 && EnoughAC(bits, ac, j)
    && DecodeAC(bits, ac, table, j) == r
  }

  /** Decoding from coefficient j comes to the same as decoding the rest from coefficient k, and can do so. */
  ghost predicate Moves(bits: seq<bool>, ac: Entries, table: seq<int>, j: nat,
                        rest: seq<bool>, after: seq<int>, k: nat)
  {
    Leads(bits, ac, table, j, rest, after, k) && EnoughAC(rest, ac, k)
  }

  lemma MovesOn(bits: seq<bool>, ac: Entries, table: seq<int>, i: nat, b: seq<bool>, t: seq<int>, j: nat,
                rest: seq<bool>, after: seq<int>, k: nat)
    requires Moves(bits, ac, table, i, b, t, j) && Moves(b, ac, t, j, rest, after, k)
    ensures Moves(bits, ac, table, i, rest, after, k)
  {
    hide Leads;
    LeadsOn(bits, ac, table, i, b, t, j, rest, after, k);
  }

  lemma MovesToEnd(bits: seq<bool>, ac: Entries, table: seq<int>, i: nat, b: seq<bool>, t: seq<int>, j: nat,
                   r: AcResult)
    requires Moves(bits, ac, table, i, b, t, j) && Ends(b, ac, t, j, r)
    ensures Ends(bits, ac, table, i, r)
  {
    hide DecodeAC;
  }

  lemma StartMoves(bits: seq<bool>, ac: Entries, table: seq<int>)
    requires |table| == TABLE_SIZE && SymbolsBelow(ac, 256) && EnoughAC(bits, ac, 0)
    ensures Moves(bits, ac, table, 0, bits, table, 0)
  {}

  lemma MovesBounds(bits: seq<bool>, ac: Entries, table: seq<int>, i: nat, rest: seq<bool>, after: seq<int>, k: nat)
    requires Moves(bits, ac, table, i, rest, after, k)
    ensures k <= 78 < TABLE_SIZE && SymbolsBelow(ac, 256) && EnoughAC(rest, ac, k)
  {}

  lemma MovesPastEnd(bits: seq<bool>, ac: Entries, table: seq<int>, i: nat, rest: seq<bool>, after: seq<int>, k: nat)
    requires Moves(bits, ac, table, i, rest, after, k) && k >= 63
    ensures Ends(bits, ac, table, i, AcResult(true, after, k, rest))
  {}

  lemma EndsResult(bits: seq<bool>, ac: Entries, table: seq<int>, i: nat, r: AcResult)
    requires Ends(bits, ac, table, i, r)
    ensures |table| == TABLE_SIZE && SymbolsBelow(ac, 256) && i <= 78 && EnoughAC(bits, ac, i)
    ensures DecodeAC(bits, ac, table, i) == r
  {}

  lemma EnoughForSymbol(bits: seq<bool>, ac: Entries, j: nat)
    requires j < 63 && SymbolsBelow(ac, 256) && EnoughAC(bits, ac, j)
    ensures EnoughCode(bits, ac) && TABLE_SIZE == 128
  {}

  lemma NoSymbol(bits: seq<bool>, ac: Entries, table: seq<int>, j: nat)
    requires |table| == TABLE_SIZE && SymbolsBelow(ac, 256) && j < 63 && EnoughAC(bits, ac, j)
    requires |bits| >= 16 && LookUp(ac, bits) == None
    ensures Ends(bits, ac, table, j, AcResult(false, table, j, bits))
  {}

  lemma ZeroSymbol(bits: seq<bool>, ac: Entries, table: seq<int>, j: nat, b: seq<bool>, comb: nat, k: nat)
    requires |table| == TABLE_SIZE && SymbolsBelow(ac, 256) && j < 63 && EnoughAC(bits, ac, j)
    requires Reads(ac, bits, comb, b) && comb < 256 && comb % 16 == 0
    requires k == if comb / 16 == 15 then j + 16 else j
    ensures if comb / 16 == 15 then Moves(bits, ac, table, j, b, table, k)
            else Ends(bits, ac, table, j, AcResult(true, table, j, b))
  {}

  lemma CoefficientTurn(bits: seq<bool>, ac: Entries, table: seq<int>, j: nat, b: seq<bool>, comb: nat,
                        val: nat, k: nat, rest: seq<bool>, after: seq<int>)
    requires |table| == TABLE_SIZE && SymbolsBelow(ac, 256) && j < 63 && EnoughAC(bits, ac, j)
    requires Reads(ac, bits, comb, b) && comb < 256 && val == comb % 16 != 0 && |b| >= 16
    requires k == j + comb / 16 + 1
    requires rest == b[val..] && after == table[k := Extend(BitsValue(b[..val]), val)]
    ensures Moves(bits, ac, table, j, rest, after, k)
  {
    hide *;
    CoefficientSymbol(bits, ac, table, j, b, comb, rest, after);
  }

  lemma CoefficientSymbol(bits: seq<bool>, ac: Entries, table: seq<int>, j: nat, b: seq<bool>, comb: nat,
                          rest: seq<bool>, after: seq<int>)
    requires |table| == TABLE_SIZE && SymbolsBelow(ac, 256) && j < 63 && EnoughAC(bits, ac, j)
    requires Reads(ac, bits, comb, b) && comb < 256 && comb % 16 != 0 && |b| >= 16
    requires rest == b[comb % 16..]
    requires after == table[j + comb / 16 + 1 := Extend(BitsValue(b[..comb % 16]), comb % 16)]
    ensures Moves(bits, ac, table, j, rest, after, j + comb / 16 + 1)
  {
    hide BitsValue, Extend, SymbolsBelow, LookUp;
  }

  lemma RowArrays(t: LookupTable, rows: Entries, ind: nat)
    requires t.Represents(rows) && ind < MAX_CODES
    ensures ind < t.mask.Length && ind < t.bits.Length
  {}

  lemma RowWords(t: LookupTable, k: nat, rows: Entries, bits: bv32, mask: bv32)
    requires t.Represents(rows) && k < |rows|
    requires k < t.bits.Length && k < t.mask.Length && bits == t.bits[k] && mask == t.mask[k]
    ensures Bits(bits) == rows[k].Bits() + Zeros(32 - rows[k].len)
    ensures Bits(mask) == Ones(rows[k].len) + Zeros(32 - rows[k].len)
  {
    assert t.Holds(k, rows[k]);
  }

  lemma RowTest(e: Entry, d: bv32, mask: bv32, bits: bv32, stream: seq<bool>)
    requires Bits(bits) == e.Bits() + Zeros(32 - e.len) && Bits(mask) == Ones(e.len) + Zeros(32 - e.len)
    requires |stream| >= 16
    ensures stream[..e.len] == Bits(d)[..e.len] ==> (And(d, mask) == bits <==> Matches(e, stream))
  {
    MatchTest(d, mask, bits, e.Bits(), e.len, 32 - e.len);
  }

  lemma StreamTop(d: bv32, b: int, raw: seq<Byte>, n: nat)
    requires n <= b <= 32
    ensures |StreamOf(d, b, raw)| >= b && StreamOf(d, b, raw)[..n] == Bits(d)[..n]
  {
    hide Bits, BytesBits, Delivered;
  }

  lemma MaskLength()
    ensures |MASK| == 17
  {}

  lemma TopOfStream(d: bv32, b: int, raw: seq<Byte>, n: nat, k: nat)
    requires n <= 16 <= b <= 32 && n + k == 32
    ensures n <= |StreamOf(d, b, raw)| && n < |MASK|
    ensures WordValue(Sar(d, k) & MASK[n]) == BitsValue(StreamOf(d, b, raw)[..n])
  {
    TopBits(d, n, k);
    StreamTop(d, b, raw, n);
  }

  lemma TableShape(t: LookupTable, rows: Entries)
    requires t.Represents(rows)
    ensures t.code.Length == t.bitlen.Length == MAX_CODES == 162
    ensures t.size == |rows| <= 162
  {}

  lemma RowFields(t: LookupTable, k: nat, rows: Entries)
    requires t.Represents(rows) && k < MAX_CODES
    ensures k < t.code.Length && k < t.bitlen.Length
    ensures k < |rows| ==> t.code[k] == rows[k].symbol && t.bitlen[k] == rows[k].len
  {
    if k < |rows| { assert t.Holds(k, rows[k]); }
  }

  lemma StepFind(rows: Entries, bits: seq<bool>, i: nat)
    requires |bits| >= 16 && i < |rows|
    ensures FindFrom(rows, bits, i) == if Matches(rows[i], bits) then i else FindFrom(rows, bits, i + 1)
  {}

  lemma Found(rows: Entries, bits: seq<bool>, hit: nat)
    requires |bits| >= 16 && hit + 1 < |rows| && FindFrom(rows, bits, 0) == hit
    ensures LookUp(rows, bits) == Some(rows[hit])
  {}

  lemma NotFound(rows: Entries, bits: seq<bool>)
    requires |bits| >= 16 && FindFrom(rows, bits, 0) + 1 >= |rows|
    ensures LookUp(rows, bits) == None
  {}

  ghost predicate Clean(d: bv32, n: int) {
    0 <= n <= 32 && forall i :: n <= i < 32 ==> !Bits(d)[i]
  }

  /** The window's bits, then the bits of the data bytes that are still to be loaded. */
  ghost function StreamOf(d: bv32, n: int, raw: seq<Byte>): seq<bool>
    requires 0 <= n <= 32
  {
    Bits(d)[..n] + BytesBits(Delivered(raw))
  }

  lemma DropTop(d: bv32, b: int, n: nat, rest: int, raw: seq<Byte>)
    requires 0 <= n <= b <= 32 && rest == b - n && Clean(d, b)
    ensures Clean(Shl(d, n), rest)
    ensures StreamOf(Shl(d, n), rest, raw) == StreamOf(d, b, raw)[n..]
  {
    BitsShl(d, n);
    hide *;
    ShiftedOut(Bits(d), Bits(Shl(d, n)), b, n, rest);
    CleanShl(d, b, n, rest);
    StreamFrom(d, Shl(d, n), b, n, rest, raw);
  }

  lemma ShiftedOut(a: seq<bool>, r: seq<bool>, b: nat, n: nat, rest: nat)
    requires |a| == 32 && n + rest == b <= 32 && r == a[n..] + Zeros(n)
    ensures |r| == 32 && r[..rest] == a[..b][n..]
    ensures (forall i :: b <= i < 32 ==> !a[i]) ==> forall i :: rest <= i < 32 ==> !r[i]
  {}

  lemma CleanShl(d: bv32, b: nat, n: nat, rest: nat)
    requires n + rest == b <= 32 && Clean(d, b)
    requires (forall i :: b <= i < 32 ==> !Bits(d)[i]) ==> forall i :: rest <= i < 32 ==> !Bits(Shl(d, n))[i]
    ensures Clean(Shl(d, n), rest)
  {
    hide Bits, Shl;
  }

  lemma StreamFrom(d: bv32, e: bv32, b: nat, n: nat, rest: nat, raw: seq<Byte>)
    requires n + rest == b <= 32 && Bits(e)[..rest] == Bits(d)[..b][n..]
    ensures n <= |StreamOf(d, b, raw)| && StreamOf(e, rest, raw) == StreamOf(d, b, raw)[n..]
  {
    hide Bits, Delivered, BytesBits;
  }

  lemma AddByte(d: bv32, w: bv32, e: bv32, b: Byte, n: nat, k: nat)
    requires n + k == 24 && n <= 23 && Clean(d, n)
    requires w == Shl(Word(b), k) && e == d | w
    ensures Clean(e, n + 8)
    ensures Bits(e)[..n + 8] == Bits(d)[..n] + NatBits(b, 8)
  {
    hide Bits, Shl, Word, NatBits;
    assert Bits(d)[n..] == Zeros(8 + k);
    PutByte(d, w, b, n, k);
    FromParts(Bits(e), Bits(d)[..n], NatBits(b, 8), k);
  }

  lemma FromParts(r: seq<bool>, a: seq<bool>, byte: seq<bool>, k: nat)
    requires |r| == 32 && r == a + byte + Zeros(k) && |byte| == 8
    ensures r[..|a| + 8] == a + byte
    ensures forall i :: |a| + 8 <= i < 32 ==> !r[i]
  {}

  lemma EnoughRaw(d: bv32, n: int, raw: seq<Byte>)
    requires 0 <= n < 16 && |StreamOf(d, n, raw)| >= AHEAD
    ensures raw != [] && (raw[0] == 0xff ==> |raw| > 1 && (raw[1] == 0 ==> |raw| > 2))
  {
    hide Bits, BytesBits;
  }

  lemma TakeOne(uc: Byte, rest: seq<Byte>)
    requires uc != 0xff
    ensures Delivered([uc] + rest) == [uc] + Delivered(rest)
  {
    assert ([uc] + rest)[1..] == rest;
  }

  lemma TakePair(raw: seq<Byte>, uc: Byte, rest: seq<Byte>)
    requires |raw| > 1 && raw[0] == 0xff
    requires if raw[1] == 0 then |raw| > 2 && uc == raw[2] && rest == raw[3..] else uc == raw[1] && rest == raw[2..]
    ensures Delivered(raw) == [0xff, uc] + Delivered(rest)
  {}

  lemma StreamOne(d0: bv32, b0: int, d: bv32, b: int, uc: Byte, raw: seq<Byte>, rest: seq<Byte>)
    requires 0 <= b0 && b == b0 + 8 <= 32
    requires Bits(d)[..b] == Bits(d0)[..b0] + NatBits(uc, 8)
    requires Delivered(raw) == [uc] + Delivered(rest)
    ensures StreamOf(d, b, rest) == StreamOf(d0, b0, raw)
  {
    hide Bits, Delivered, NatBits;
    var more := Delivered(rest);
    assert ([uc] + more)[1..] == more;
  }

  lemma StreamPair(d0: bv32, b0: int, d: bv32, b: int, uc: Byte, raw: seq<Byte>, rest: seq<Byte>)
    requires 0 <= b0 && b == b0 + 16 <= 32
    requires Bits(d)[..b] == Bits(d0)[..b0] + NatBits(0xff, 8) + NatBits(uc, 8)
    requires Delivered(raw) == [0xff, uc] + Delivered(rest)
    ensures StreamOf(d, b, rest) == StreamOf(d0, b0, raw)
  {
    hide Bits, Delivered, NatBits;
    var more := Delivered(rest);
    var pair := [0xff, uc] + more;
    assert pair[1..] == [uc] + more && pair[1..][1..] == more;
    assert BytesBits(pair) == NatBits(0xff, 8) + NatBits(uc, 8) + BytesBits(more);
  }

  lemma LoadTwo(raw: seq<Byte>, start: nat, d: bv32, w: bv32, data: bv32)
    requires start + 2 <= |raw|
    requires d == Shl(Word(raw[start]), 24) && w == Shl(Word(raw[start + 1]), 16) && data == d | w
    ensures Clean(data, 16)
    ensures StreamOf(data, 16, raw[start + 2..]) == BytesBits(Loaded(raw[start..]))
  {
    ByteWord(raw[start], 0, 24);
    hide *;
    FirstByte(d, raw[start]);
    AddByte(d, w, data, raw[start + 1], 8, 16);
    LoadedBits(raw, start);
    TwoBytes(data, raw, start);
  }

  lemma FirstByte(d: bv32, b: Byte)
    requires Bits(d) == Zeros(0) + NatBits(b, 8) + Zeros(24)
    ensures Clean(d, 8) && Bits(d)[..8] == NatBits(b, 8)
  {
    hide Bits, NatBits;
  }

  lemma TwoBytes(data: bv32, raw: seq<Byte>, start: nat)
    requires start + 2 <= |raw|
    requires Bits(data)[..16] == NatBits(raw[start], 8) + NatBits(raw[start + 1], 8)
    requires BytesBits(Loaded(raw[start..])) ==
             NatBits(raw[start], 8) + NatBits(raw[start + 1], 8) + BytesBits(Delivered(raw[start + 2..]))
    ensures StreamOf(data, 16, raw[start + 2..]) == BytesBits(Loaded(raw[start..]))
  {
    hide Bits, NatBits, BytesBits, Loaded, Delivered;
  }

  lemma LoadedBits(raw: seq<Byte>, start: nat)
    requires start + 2 <= |raw|
    ensures BytesBits(Loaded(raw[start..])) ==
            NatBits(raw[start], 8) + NatBits(raw[start + 1], 8) + BytesBits(Delivered(raw[start + 2..]))
  {
    hide Delivered, NatBits;
    var more := Delivered(raw[start + 2..]);
    var all := Loaded(raw[start..]);
    assert raw[start..][2..] == raw[start + 2..];
    assert all == [raw[start], raw[start + 1]] + more;
    assert all[1..] == [raw[start + 1]] + more && all[1..][1..] == more;
  }

  lemma BitsZero()
    ensures Bits(0) == Zeros(32)
  {
    forall i | 0 <= i < 32 ensures !Bits(0)[i] { ShlZero(i); }
  }

  /** Or-ing a byte in below the top n bits. */
  lemma PutByte(d: bv32, w: bv32, b: Byte, n: nat, k: nat)
    requires n + k == 24 && Bits(d)[n..] == Zeros(8 + k) && w == Shl(Word(b), k)
    ensures Bits(d | w) == Bits(d)[..n] + NatBits(b, 8) + Zeros(k)
  {
    ByteWord(b, n, k);
    hide *;
    BitsOr(d, w);
    OrBits(Bits(d), Bits(w), Bits(d | w), NatBits(b, 8), n, k);
  }

  lemma ByteWord(b: Byte, n: nat, k: nat)
    requires n + k == 24
    ensures Bits(Shl(Word(b), k)) == Zeros(n) + NatBits(b, 8) + Zeros(k)
  {
    BitsWord(b);
    Pow2Values();
    NatBitsHigh(b, 24, 8);
    BitsShl(Word(b), k);
    hide *;
    assert Bits(Word(b))[k..] == Zeros(n) + NatBits(b, 8);
  }

  lemma OrBits(d: seq<bool>, w: seq<bool>, r: seq<bool>, byte: seq<bool>, n: nat, k: nat)
    requires n + k == 24 && |d| == |w| == |r| == 32 && |byte| == 8
    requires d[n..] == Zeros(8 + k) && w == Zeros(n) + byte + Zeros(k)
    requires IsOr(d, w, r)
    ensures r == d[..n] + byte + Zeros(k)
  {
    forall i | 0 <= i < 32 ensures r[i] == (d[..n] + byte + Zeros(k))[i] {
      if i >= n { assert !d[n..][i - n]; }
    }
  }

  lemma MaskTable(n: nat, k: nat)
    requires n <= 16 && n + k == 32
    ensures Bits(MASK[n]) == Zeros(k) + Ones(n)
  {
    if n == 0 {
      BitsZero();
    } else {
      MaskTable(n - 1, k + 1);
      MaskAppend(n);
      BitsAppend(MASK[n - 1], true);
    }
  }

  lemma MaskAppend(n: nat)
    requires 1 <= n <= 16
    ensures MASK[n] == Append(MASK[n - 1], true)
  {
    if n <= 4 { if n == 1 {} else if n == 2 {} else if n == 3 {} else {} }
    else if n <= 8 { if n == 5 {} else if n == 6 {} else if n == 7 {} else {} }
    else if n <= 12 { if n == 9 {} else if n == 10 {} else if n == 11 {} else {} }
    else { if n == 13 {} else if n == 14 {} else if n == 15 {} else {} }
  }

  /** `(data >> (32 - n)) & mask[n]` is the number in the top n bits, also when the shift drags in the sign. */
  lemma TopBits(d: bv32, n: nat, k: nat)
    requires n <= 16 && n + k == 32
    ensures WordValue(Sar(d, k) & MASK[n]) == BitsValue(Bits(d)[..n])
  {
    MaskTable(n, k);
    forall i | k <= i < 32 ensures Bits(Sar(d, k))[i] == Bits(d)[i - k] { BitSar(d, k, i); }
    MaskedValue(Sar(d, k), MASK[n], Bits(d)[..n], k);
  }

  lemma MaskedValue(s: bv32, m: bv32, low: seq<bool>, k: nat)
    requires k + |low| == 32
    requires Bits(m) == Zeros(k) + Ones(|low|)
    requires forall i :: k <= i < 32 ==> Bits(s)[i] == low[i - k]
    ensures WordValue(s & m) == BitsValue(low)
  {
    BitsAnd(s, m);
    hide Bits, Bit, IsAnd;
    AndBits(Bits(s), Bits(m), Bits(s & m), low, k);
    LeadingZeros(k, low);
  }

  lemma AndBits(s: seq<bool>, m: seq<bool>, r: seq<bool>, low: seq<bool>, k: nat)
    requires |s| == |m| == |r| == 32 && k + |low| == 32
    requires m == Zeros(k) + Ones(|low|)
    requires forall i :: k <= i < 32 ==> s[i] == low[i - k]
    requires IsAnd(s, m, r)
    ensures r == Zeros(k) + low
  {}

  /** `(data & mask) == bits` tests whether the window starts with the code. */
  lemma MatchTest(d: bv32, mask: bv32, bits: bv32, code: seq<bool>, n: nat, k: nat)
    requires |code| == n && n + k == 32
    requires Bits(mask) == Ones(n) + Zeros(k) && Bits(bits) == code + Zeros(k)
    ensures d & mask == bits <==> Bits(d)[..n] == code
  {
    BitsAnd(d, mask);
    KeepTop(Bits(d), Bits(mask), Bits(d & mask), n, k);
    if Bits(d)[..n] == code { BitsInjective(d & mask, bits); }
    if d & mask == bits { SameTail(Bits(d)[..n], code, Zeros(k)); }
  }

  lemma SameTail(a: seq<bool>, b: seq<bool>, z: seq<bool>)
    requires |a| == |b| && a + z == b + z
    ensures a == b
  {
    assert a == (a + z)[..|a|] && b == (b + z)[..|b|];
  }

  lemma KeepTop(d: seq<bool>, m: seq<bool>, r: seq<bool>, n: nat, k: nat)
    requires |d| == |m| == |r| == 32 && n + k == 32
    requires m == Ones(n) + Zeros(k)
    requires IsAnd(d, m, r)
    ensures r == d[..n] + Zeros(k)
  {}
}
