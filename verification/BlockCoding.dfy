/**
  One block of 64 coefficients as bits: the encoder of section F.1.2 of ITU-T T.81,
  and what `readTable` makes of any bits.
 */
module BlockCoding {
  import opened BitStrings
  import opened Collections
  import opened HuffmanTables

  // ----- magnitudes -----

  /** HUFF_EXTEND; a shift of 1 by -1 counts as 0. */
  function Extend(x: int, s: nat): int {
    if x < (if s == 0 then 0 else Pow2(s - 1)) then x - Pow2(s) + 1 else x
  }

  /** How many bits the absolute value takes. */
  function BitSize(n: nat): (s: nat)
    ensures n < Pow2(s)
    ensures n > 0 ==> s > 0 && Pow2(s - 1) <= n
  {
    if n == 0 then 0
    else
      var t := BitSize(n / 2);
      assert Pow2(1 + t) == 2 * Pow2(t);
      assert t > 0 ==> Pow2(t) == 2 * Pow2(t - 1);
      1 + t
  }

  function Abs(v: int): nat { if v < 0 then -v else v }

  function SizeOf(v: int): nat { BitSize(Abs(v)) }

  /** The bits that follow the size category of v. */
  function MagnitudeBits(v: int): (bits: seq<bool>)
    ensures |bits| == SizeOf(v)
  {
    var s := SizeOf(v);
    NatBits(if v >= 0 then v else v + Pow2(s) - 1, s)
  }

  /** The number that the magnitude bits write. */
  lemma MagnitudeNumber(v: int) returns (x: nat)
    ensures x < Pow2(SizeOf(v)) && MagnitudeBits(v) == NatBits(x, SizeOf(v)) && Extend(x, SizeOf(v)) == v
  {
    hide NatBits;
    var s := SizeOf(v);
    x := if v >= 0 then v else v + Pow2(s) - 1;
    if s > 0 { assert Pow2(s) == 2 * Pow2(s - 1); }
  }

  /** HUFF_EXTEND undoes the magnitude coding of every number. */
  lemma ExtendMagnitude(v: int)
    ensures Extend(BitsValue(MagnitudeBits(v)), SizeOf(v)) == v
  {
    hide *;
    var x := MagnitudeNumber(v);
    BitsValueNatBits(x, SizeOf(v));
  }

  /** ... and the magnitude coding undoes HUFF_EXTEND on every pattern of s bits. */
  lemma MagnitudeExtend(bits: seq<bool>)
    ensures var v := Extend(BitsValue(bits), |bits|);
            SizeOf(v) == |bits| && MagnitudeBits(v) == bits
  {
    hide BitsValue, NatBits, BitSize, Pow2;
    BitsValueBound(bits);
    NatBitsBitsValue(bits);
    ExtendSize(BitsValue(bits), |bits|);
  }

  /** The size and the offset of a number that HUFF_EXTEND yields. */
  lemma ExtendSize(x: nat, s: nat)
    requires x < Pow2(s)
    ensures var v := Extend(x, s);
            SizeOf(v) == s && x == if v >= 0 then v else v + Pow2(s) - 1
  {
    var v := Extend(x, s);
    if s > 0 {
      assert Pow2(s) == 2 * Pow2(s - 1);
      assert Pow2(s - 1) <= Abs(v) < Pow2(s);
      SizeUnique(Abs(v), s, SizeOf(v));
    }
  }

  lemma {:induction false} PowOrder(a: nat, b: nat)
    requires a <= b
    ensures Pow2(a) <= Pow2(b)
  {
    if a < b { PowOrder(a, b - 1); }
  }

  lemma SizeUnique(n: nat, s: nat, t: nat)
    requires s > 0 && t > 0
    requires Pow2(s - 1) <= n < Pow2(s) && Pow2(t - 1) <= n < Pow2(t)
    ensures s == t
  {
    if s < t { PowOrder(s, t - 1); } else if t < s { PowOrder(t, s - 1); }
  }

  // ----- decoding -----

  const TABLE_SIZE := 128

  /** The window is filled up to this many bits before and after every code. */
  const AHEAD := 16

  ghost predicate SymbolsBelow(es: Entries, n: nat) {
    forall k :: 0 <= k < |es| ==> es[k].symbol < n
  }

  datatype AcResult = AcResult(ok: bool, table: seq<int>, j: nat, rest: seq<bool>)

  /** The bits that the window is filled with are there, before and after a code. */
  ghost predicate EnoughCode(bits: seq<bool>, es: Entries) {
    && |bits| >= AHEAD
    && match LookUp(es, bits)
       case None => true
       case Some(e) => |bits| - e.len >= AHEAD
  }

  /** From coefficient j on, the bits that the window is filled with are there. */
  ghost predicate EnoughAC(bits: seq<bool>, ac: Entries, j: nat)
    requires SymbolsBelow(ac, 256)
    decreases if j < 63 then 63 - j else 0
  {
    j < 63 ==>
      && EnoughCode(bits, ac)
      && match LookUp(ac, bits)
         case None => true
         case Some(e) =>
           var b := bits[e.len..];
           var val := e.symbol % 16;
           if val != 0 then EnoughAC(b[val..], ac, j + e.symbol / 16 + 1)
           else e.symbol / 16 == 15 ==> EnoughAC(b, ac, j + 16)
  }

  function DecodeAC(bits: seq<bool>, ac: Entries, table: seq<int>, j: nat): (r: AcResult)
    requires |table| == TABLE_SIZE && j <= 78
    requires SymbolsBelow(ac, 256) && EnoughAC(bits, ac, j)
    ensures |r.table| == TABLE_SIZE
    ensures j <= r.j <= 78
    decreases |table| - j
  {
    if j >= 63 then AcResult(true, table, j, bits)
    else match LookUp(ac, bits)
      case None => AcResult(false, table, j, bits)
      case Some(e) =>
        var b := bits[e.len..];
        var val := e.symbol % 16;
        var repeat := e.symbol / 16;
        if val == 0 then
          if repeat == 15 then DecodeAC(b, ac, table, j + 16) else AcResult(true, table, j, b)
        else
          var k := j + repeat + 1;
          DecodeAC(b[val..], ac, table[k := Extend(BitsValue(b[..val]), val)], k)
  }

  datatype BlockResult = BlockResult(ok: bool, table: seq<int>, dc: int, rest: seq<bool>)

  /** The table after the first 64 entries have been cleared; the others keep what they held. */
  function Cleared(initial: seq<int>): (t: seq<int>)
    requires |initial| == TABLE_SIZE
    ensures |t| == TABLE_SIZE && t[64..] == initial[64..] && forall i :: 0 <= i < 64 ==> t[i] == 0
  {
    seq(64, i => 0) + initial[64..]
  }

  ghost predicate TablesReadable(dc: Entries, ac: Entries) {
    SymbolsBelow(dc, 17) && SymbolsBelow(ac, 256)
  }

  /** The AC part of a block whose DC value is known. */
  function FinishBlock(bits: seq<bool>, ac: Entries, value: int, initial: seq<int>): (r: BlockResult)
    requires |initial| == TABLE_SIZE && SymbolsBelow(ac, 256) && EnoughAC(bits, ac, 0)
    ensures |r.table| == TABLE_SIZE
  {
    var a := DecodeAC(bits, ac, Cleared(initial)[0 := value], 0);
    BlockResult(a.ok && a.j <= 63, a.table, value, a.rest)
  }

  /** The same for a whole block: this is what the decoder, which does not test for the end of its data, relies on. */
  ghost predicate EnoughBlock(bits: seq<bool>, dc: Entries, ac: Entries)
    requires TablesReadable(dc, ac)
  {
    && EnoughCode(bits, dc)
    && match LookUp(dc, bits)
       case None => true
       case Some(e) => EnoughAC(bits[e.len..][e.symbol..], ac, 0)
  }

  /** What `readTable` returns, leaves in `table` and `*lastDC`, and has not consumed. */
  function DecodeBlock(bits: seq<bool>, dc: Entries, ac: Entries, pred: int, initial: seq<int>): (r: BlockResult)
    requires |initial| == TABLE_SIZE && TablesReadable(dc, ac) && EnoughBlock(bits, dc, ac)
    ensures |r.table| == TABLE_SIZE
  {
    match LookUp(dc, bits)
    case None => BlockResult(false, Cleared(initial), pred, bits)
    case Some(e) =>
      var b := bits[e.len..];
      var diff := Extend(BitsValue(b[..e.symbol]), e.symbol);
      FinishBlock(b[e.symbol..], ac, pred + diff, initial)
  }

  /** No more than this many bits are looked at from coefficient j on. */
  function BitsNeeded(j: nat): nat {
    if j >= 63 then 0 else 31 * (63 - j) + AHEAD
  }

  lemma {:induction false} PlentyForAC(bits: seq<bool>, ac: Entries, j: nat)
    requires SymbolsBelow(ac, 256) && |bits| >= BitsNeeded(j)
    ensures EnoughAC(bits, ac, j)
    decreases if j < 63 then 63 - j else 0
  {
    hide FindFrom, SymbolsBelow;
    if j < 63 && LookUp(ac, bits).Some? {
      var e := LookUp(ac, bits).value;
      var b := bits[e.len..];
      PlentyForAC(b, ac, j + 16);
      PlentyForAC(b[e.symbol % 16..], ac, j + e.symbol / 16 + 1);
    }
  }

  const BLOCK_BITS := 32 + 31 * 63 + AHEAD

  /** A block never looks at more than 2001 bits, whatever they are. */
  lemma PlentyForBlock(bits: seq<bool>, dc: Entries, ac: Entries)
    requires TablesReadable(dc, ac) && |bits| >= BLOCK_BITS
    ensures EnoughBlock(bits, dc, ac)
  {
    hide FindFrom, EnoughAC;
    if LookUp(dc, bits).Some? {
      var e := LookUp(dc, bits).value;
      PlentyForAC(bits[e.len..][e.symbol..], ac, 0);
    }
  }

  // ----- encoding -----

  /** The first row from i on that carries the symbol, or |es|. */
  function RowFrom(es: Entries, symbol: nat, i: nat): (k: nat)
    requires i <= |es|
    ensures i <= k <= |es|
    ensures k < |es| ==> es[k].symbol == symbol
    decreases |es| - i
  {
    if i == |es| || es[i].symbol == symbol then i else RowFrom(es, symbol, i + 1)
  }

  function RowOf(es: Entries, symbol: nat): (k: nat)
    ensures k <= |es|
    ensures k < |es| ==> es[k].symbol == symbol
  {
    RowFrom(es, symbol, 0)
  }

  /** The symbol is on a row with at least `spare` rows behind it. */
  predicate OnRow(es: Entries, symbol: nat, spare: nat) {
    RowOf(es, symbol) + spare < |es|
  }

  /** The table has a code for the symbol. */
  predicate Present(es: Entries, symbol: nat) {
    OnRow(es, symbol, 0)
  }

  /** The decoder can read the symbol: it is in the table, and not on the last row. */
  predicate Usable(es: Entries, symbol: nat) {
    OnRow(es, symbol, 1)
  }

  function CodeOf(es: Entries, symbol: nat): seq<bool>
    requires Present(es, symbol)
  {
    es[RowOf(es, symbol)].Bits()
  }

  const EOB: nat := 0
  const ZRL: nat := 0xf0

  /** The coefficients from k on, after `run` zeros not coded yet, need only symbols with `spare` rows behind them. */
  predicate CodedAC(block: seq<int>, ac: Entries, k: nat, run: nat, spare: nat)
    requires |block| == 64 && k <= 64
    decreases 64 - k
  {
    if k == 64 then run > 0 ==> OnRow(ac, EOB, spare)
    else if block[k] == 0 then CodedAC(block, ac, k + 1, run + 1, spare)
    else
      && SizeOf(block[k]) <= 15
      && (run >= 16 ==> OnRow(ac, ZRL, spare))
      && OnRow(ac, 16 * (run % 16) + SizeOf(block[k]), spare)
      && CodedAC(block, ac, k + 1, 0, spare)
  }

  predicate EncodableAC(block: seq<int>, ac: Entries, k: nat, run: nat)
    requires |block| == 64 && k <= 64
  {
    CodedAC(block, ac, k, run, 0)
  }

  predicate RestorableAC(block: seq<int>, ac: Entries, k: nat, run: nat)
    requires |block| == 64 && k <= 64
  {
    CodedAC(block, ac, k, run, 1)
  }

  function ZeroRuns(ac: Entries, n: nat): seq<bool>
    requires n > 0 ==> Present(ac, ZRL)
  {
    if n == 0 then [] else CodeOf(ac, ZRL) + ZeroRuns(ac, n - 1)
  }

  /** The coefficients from k on, after `run` zeros that are not coded yet. */
  function EncodeAC(block: seq<int>, ac: Entries, k: nat, run: nat): seq<bool>
    requires |block| == 64 && k <= 64 && EncodableAC(block, ac, k, run)
    decreases 64 - k
  {
    if k == 64 then if run > 0 then CodeOf(ac, EOB) else []
    else if block[k] == 0 then EncodeAC(block, ac, k + 1, run + 1)
    else
      ZeroRuns(ac, run / 16)
      + (CodeOf(ac, 16 * (run % 16) + SizeOf(block[k]))
         + (MagnitudeBits(block[k])
            + EncodeAC(block, ac, k + 1, 0)))
  }

  predicate Coded(block: seq<int>, dc: Entries, ac: Entries, pred: int, spare: nat) {
    && |block| == 64
    && SizeOf(block[0] - pred) <= 16
    && OnRow(dc, SizeOf(block[0] - pred), spare)
    && CodedAC(block, ac, 1, 0, spare)
  }

  /** The tables have codes for everything in the block. */
  predicate Encodable(block: seq<int>, dc: Entries, ac: Entries, pred: int) {
    Coded(block, dc, ac, pred, 0)
  }

  /** ... and none of these is on the last row of its table. */
  predicate Restorable(block: seq<int>, dc: Entries, ac: Entries, pred: int) {
    Coded(block, dc, ac, pred, 1)
  }

  function EncodeBlock(block: seq<int>, dc: Entries, ac: Entries, pred: int): seq<bool>
    requires Encodable(block, dc, ac, pred)
  {
    hide CodedAC, OnRow, BitSize;
    var diff := block[0] - pred;
    CodeOf(dc, SizeOf(diff)) + (MagnitudeBits(diff) + EncodeAC(block, ac, 1, 0))
  }

  // ----- with wide tables everything can be restored -----

  /** Coefficients of at most m bits. */
  predicate SmallEnough(block: seq<int>, m: nat) {
    |block| == 64 && forall i :: 0 <= i < 64 ==> SizeOf(block[i]) <= m
  }

  /** The decoder can read every size of a DC difference up to m. */
  ghost predicate AllSizes(dc: Entries, m: nat) {
    forall s: nat {:trigger Usable(dc, s)} :: s <= m ==> Usable(dc, s)
  }

  /** The decoder can read the end of a block, 16 zeros, and every run with every size up to m. */
  ghost predicate AllRuns(ac: Entries, m: nat) {
    && Usable(ac, EOB) && Usable(ac, ZRL)
    && forall symbol: nat {:trigger Usable(ac, symbol)} :: symbol < 256 && 1 <= symbol % 16 <= m ==> Usable(ac, symbol)
  }

  lemma SizeAtMost(n: nat, s: nat)
    requires n < Pow2(s)
    ensures BitSize(n) <= s
  {
    if BitSize(n) > s { PowOrder(s, BitSize(n) - 1); }
  }

  lemma DifferenceSize(a: int, b: int, m: nat)
    requires SizeOf(a) <= m && SizeOf(b) <= m
    ensures SizeOf(a - b) <= m + 1
  {
    PowOrder(SizeOf(a), m);
    PowOrder(SizeOf(b), m);
    assert Pow2(m + 1) == 2 * Pow2(m);
    SizeAtMost(Abs(a - b), m + 1);
  }

  lemma NonZeroSize(v: int)
    requires v != 0
    ensures SizeOf(v) >= 1
  {}

  lemma SymbolParts(run: nat, size: nat)
    requires size < 16
    ensures (16 * run + size) % 16 == size && (16 * run + size) / 16 == run
  {}

  lemma RunUsable(ac: Entries, m: nat, run: nat, size: nat)
    requires AllRuns(ac, m) && run < 16 && 1 <= size <= m <= 15
    ensures Usable(ac, 16 * run + size)
  {
    SymbolParts(run, size);
  }

  lemma EobUsable(ac: Entries, m: nat)
    requires AllRuns(ac, m)
    ensures Usable(ac, EOB) && Usable(ac, ZRL)
  {}

  lemma {:induction false} EveryRunRestorable(block: seq<int>, ac: Entries, m: nat, k: nat, run: nat)
    requires m <= 15 && SmallEnough(block, m) && AllRuns(ac, m) && k <= 64
    ensures RestorableAC(block, ac, k, run)
    decreases 64 - k
  {
    hide OnRow, BitSize, AllRuns;
    if k == 64 {
      EobUsable(ac, m);
    } else {
      if block[k] == 0 {
        EveryRunRestorable(block, ac, m, k + 1, run + 1);
      } else {
        NonZeroSize(block[k]);
        RunUsable(ac, m, run % 16, SizeOf(block[k]));
        EobUsable(ac, m);
        EveryRunRestorable(block, ac, m, k + 1, 0);
      }
    }
  }

  lemma EveryBlockRestorable(block: seq<int>, dc: Entries, ac: Entries, pred: int, m: nat)
    requires m <= 15 && SmallEnough(block, m) && SizeOf(pred) <= m && AllSizes(dc, m + 1) && AllRuns(ac, m)
    ensures Restorable(block, dc, ac, pred) && Encodable(block, dc, ac, pred)
  {
    EveryRunRestorable(block, ac, m, 1, 0);
    DifferenceSize(block[0], pred, m);
    RestorableIsEncodable(block, ac, 1, 0);
    SizeUsable(dc, m + 1, SizeOf(block[0] - pred));
    hide BitSize, CodedAC, AllRuns, AllSizes, RowOf;
  }

  lemma SizeUsable(dc: Entries, m: nat, s: nat)
    requires AllSizes(dc, m) && s <= m
    ensures Usable(dc, s)
  {}

  lemma {:induction false} RestorableIsEncodable(block: seq<int>, ac: Entries, k: nat, run: nat)
    requires |block| == 64 && k <= 64 && RestorableAC(block, ac, k, run)
    ensures EncodableAC(block, ac, k, run)
    decreases 64 - k
  {
    hide BitSize, RowOf;
    if k < 64 { RestorableIsEncodable(block, ac, k + 1, if block[k] == 0 then run + 1 else 0); }
  }

  // ----- the decoder undoes the encoder -----

  /** The search loop takes `symbol` off the front of the bits and leaves `rest`. */
  ghost predicate Reads(es: Entries, bits: seq<bool>, symbol: nat, rest: seq<bool>) {
    && |bits| >= 16
    && LookUp(es, bits).Some?
    && LookUp(es, bits).value.symbol == symbol
    && LookUp(es, bits).value.len <= |bits|
    && bits[LookUp(es, bits).value.len..] == rest
  }

  /** The search loop finds nothing. */
  ghost predicate Unread(es: Entries, bits: seq<bool>) {
    |bits| >= 16 && LookUp(es, bits) == None
  }

  /** The search loop reads back every symbol but that of the last row, whatever follows its code. */
  ghost predicate Decodable(es: Entries) {
    forall symbol: nat, rest: seq<bool> {:trigger ReadsBack(es, symbol, rest)} :: ReadsBack(es, symbol, rest)
  }

  ghost predicate ReadsBack(es: Entries, symbol: nat, rest: seq<bool>) {
    Present(es, symbol) && |rest| >= 16 ==>
      if Usable(es, symbol) then Reads(es, CodeOf(es, symbol) + rest, symbol, rest)
      else Unread(es, CodeOf(es, symbol) + rest)
  }

  /** Tables built by the DHT loop whose counts meet the Kraft inequality are decodable. */
  lemma CanonicalDecodable(counts: seq<nat>, symbols: seq<nat>)
    requires |counts| == 16 && Total(counts, 1) <= |symbols| && KraftSum(counts, 1) <= 65536
    ensures Decodable(Canonical(counts, symbols))
  {
    var es := Canonical(counts, symbols);
    CanonicalTiles(counts, symbols);
    FitIffKraft(counts, symbols);
    forall symbol: nat, rest: seq<bool> ensures ReadsBack(es, symbol, rest) {
      if Present(es, symbol) && |rest| >= 16 {
        LookUpCode(es, RowOf(es, symbol), CodeOf(es, symbol) + rest);
      }
    }
  }

  lemma ReadsCode(es: Entries, symbol: nat, rest: seq<bool>)
    requires Decodable(es) && Usable(es, symbol) && |rest| >= 16
    ensures Reads(es, CodeOf(es, symbol) + rest, symbol, rest)
  {
    assert ReadsBack(es, symbol, rest);
  }

  lemma LastRowUnread(es: Entries, symbol: nat, rest: seq<bool>)
    requires Decodable(es) && Present(es, symbol) && !Usable(es, symbol) && |rest| >= 16
    ensures Unread(es, CodeOf(es, symbol) + rest)
  {
    assert ReadsBack(es, symbol, rest);
  }

  /** The table after coefficients 0..j have been written. */
  ghost predicate Written(table: seq<int>, block: seq<int>, j: nat)
    requires |block| == 64
  {
    && |table| == TABLE_SIZE
    && (forall i :: 0 <= i <= j && i < 64 ==> table[i] == block[i])
    && (forall i :: j < i < 64 ==> table[i] == 0)
  }

  /** Decoding the bits from coefficient j is the same as decoding the rest from coefficient k. */
  ghost predicate Leads(bits: seq<bool>, ac: Entries, table: seq<int>, j: nat,
                        rest: seq<bool>, after: seq<int>, k: nat)
  {
    && |table| == |after| == TABLE_SIZE && SymbolsBelow(ac, 256) && j <= k <= 78
    && (EnoughAC(bits, ac, j) <==> EnoughAC(rest, ac, k))
    && (EnoughAC(rest, ac, k) ==> DecodeAC(bits, ac, table, j) == DecodeAC(rest, ac, after, k))
  }

  lemma LeadsOn(bits: seq<bool>, ac: Entries, table: seq<int>, i: nat, b: seq<bool>, t: seq<int>, j: nat,
                rest: seq<bool>, after: seq<int>, k: nat)
    requires Leads(bits, ac, table, i, b, t, j) && Leads(b, ac, t, j, rest, after, k)
    ensures Leads(bits, ac, table, i, rest, after, k)
  {
    hide DecodeAC, EnoughAC;
  }

  lemma LeadsNowhere(bits: seq<bool>, ac: Entries, table: seq<int>, j: nat)
    requires |table| == TABLE_SIZE && SymbolsBelow(ac, 256) && j <= 78
    ensures Leads(bits, ac, table, j, bits, table, j)
  {}

  lemma StepZrl(ac: Entries, bits: seq<bool>, rest: seq<bool>, table: seq<int>, j: nat)
    requires SymbolsBelow(ac, 256) && Reads(ac, bits, ZRL, rest)
    requires |table| == TABLE_SIZE && j < 63 && |rest| >= AHEAD
    ensures Leads(bits, ac, table, j, rest, table, j + 16)
  {
    hide FindFrom, SymbolsBelow;
  }

  lemma StepEob(ac: Entries, bits: seq<bool>, rest: seq<bool>, table: seq<int>, j: nat)
    requires SymbolsBelow(ac, 256) && Reads(ac, bits, EOB, rest)
    requires |table| == TABLE_SIZE && j < 63 && |rest| >= AHEAD
    ensures EnoughAC(bits, ac, j) && DecodeAC(bits, ac, table, j) == AcResult(true, table, j, rest)
  {
    hide FindFrom, SymbolsBelow;
  }

  lemma StepCoefficient(ac: Entries, bits: seq<bool>, symbol: nat, m: seq<bool>, tail: seq<bool>,
                        table: seq<int>, j: nat)
    requires SymbolsBelow(ac, 256) && Reads(ac, bits, symbol, m + tail)
    requires symbol < 256 && |m| == symbol % 16 > 0
    requires |table| == TABLE_SIZE && j < 63 && |m + tail| >= AHEAD
    ensures var k := j + symbol / 16 + 1;
            Leads(bits, ac, table, j, tail, table[k := Extend(BitsValue(m), |m|)], k)
  {
    hide LookUp, Extend, BitsValue, SymbolsBelow;
    var b := m + tail;
    assert b[..|m|] == m && b[|m|..] == tail;
  }

  lemma ReadZeroRun(ac: Entries, rest: seq<bool>, table: seq<int>, j: nat)
    requires Decodable(ac) && SymbolsBelow(ac, 256) && Usable(ac, ZRL)
    requires |table| == TABLE_SIZE && j < 63 && |rest| >= AHEAD
    ensures Leads(CodeOf(ac, ZRL) + rest, ac, table, j, rest, table, j + 16)
  {
    ReadsCode(ac, ZRL, rest);
    StepZrl(ac, CodeOf(ac, ZRL) + rest, rest, table, j);
  }

  lemma ZeroRunsSplit(ac: Entries, n: nat, tail: seq<bool>)
    requires n > 0 && Present(ac, ZRL)
    ensures ZeroRuns(ac, n) + tail == CodeOf(ac, ZRL) + (ZeroRuns(ac, n - 1) + tail)
  {}

  lemma {:induction false} DecodeZeroRuns(ac: Entries, n: nat, tail: seq<bool>, table: seq<int>, j: nat, k: nat)
    requires Decodable(ac) && (n > 0 ==> Usable(ac, ZRL))
    requires SymbolsBelow(ac, 256)
    requires |table| == TABLE_SIZE && k == j + 16 * n < 63
    requires |tail| >= AHEAD
    ensures Leads(ZeroRuns(ac, n) + tail, ac, table, j, tail, table, k)
    decreases n
  {
    hide Leads, Decodable, SymbolsBelow, CodeOf;
    if n == 0 {
      assert ZeroRuns(ac, 0) + tail == tail;
      LeadsNowhere(tail, ac, table, j);
    } else {
      var more := ZeroRuns(ac, n - 1) + tail;
      ZeroRunsSplit(ac, n, tail);
      ReadZeroRun(ac, more, table, j);
      DecodeZeroRuns(ac, n - 1, tail, table, j + 16, k);
      LeadsOn(ZeroRuns(ac, n) + tail, ac, table, j, more, table, j + 16, tail, table, k);
    }
  }

  /** One coefficient, as coded: the code of its run and size, and its magnitude bits. */
  lemma ReadCoefficient(ac: Entries, run: nat, v: int, tail: seq<bool>, table: seq<int>, j: nat, k: nat)
    requires Decodable(ac) && SymbolsBelow(ac, 256) && run < 16 && 0 < SizeOf(v) <= 15
    requires Usable(ac, 16 * run + SizeOf(v))
    requires |table| == TABLE_SIZE && k == j + run + 1 <= 63 && |tail| >= AHEAD
    ensures Leads(CodeOf(ac, 16 * run + SizeOf(v)) + (MagnitudeBits(v) + tail), ac, table, j, tail, table[k := v], k)
  {
    hide Leads, Decodable, SymbolsBelow, CodeOf;
    var symbol := 16 * run + SizeOf(v);
    var m := MagnitudeBits(v);
    SymbolParts(run, SizeOf(v));
    ReadsCode(ac, symbol, m + tail);
    StepCoefficient(ac, CodeOf(ac, symbol) + (m + tail), symbol, m, tail, table, j);
    ExtendMagnitude(v);
  }

  /** The decoder, started on coefficient j, completes the block and stops at `tail`. */
  ghost predicate Completes(block: seq<int>, ac: Entries, bits: seq<bool>, table: seq<int>, j: nat, tail: seq<bool>)
    requires |block| == 64
  {
    && |table| == TABLE_SIZE && j <= 63 && SymbolsBelow(ac, 256) && EnoughAC(bits, ac, j)
    && var r := DecodeAC(bits, ac, table, j);
       r.ok && r.j <= 63 && r.rest == tail && Written(r.table, block, 63)
  }

  /** The decoder, started on coefficient j, comes to a code that it does not find. */
  ghost predicate Breaks(ac: Entries, bits: seq<bool>, table: seq<int>, j: nat) {
    && |table| == TABLE_SIZE && j <= 62 && SymbolsBelow(ac, 256) && EnoughAC(bits, ac, j)
    && !DecodeAC(bits, ac, table, j).ok
  }

  /** It completes the coefficients from k on, or breaks off, as their symbols demand. */
  ghost predicate Resolves(block: seq<int>, ac: Entries, k: nat, run: nat, bits: seq<bool>, table: seq<int>, j: nat,
                           tail: seq<bool>)
    requires |block| == 64 && k <= 64
  {
    if RestorableAC(block, ac, k, run) then Completes(block, ac, bits, table, j, tail) else Breaks(ac, bits, table, j)
  }

  lemma StepUnread(ac: Entries, bits: seq<bool>, table: seq<int>, j: nat)
    requires |table| == TABLE_SIZE && j <= 62 && SymbolsBelow(ac, 256) && Unread(ac, bits)
    ensures Breaks(ac, bits, table, j)
  {
    hide FindFrom, SymbolsBelow;
  }

  lemma LeadsToBreak(ac: Entries, bits: seq<bool>, table: seq<int>, j: nat, rest: seq<bool>, after: seq<int>, k: nat)
    requires Leads(bits, ac, table, j, rest, after, k) && Breaks(ac, rest, after, k)
    ensures Breaks(ac, bits, table, j)
  {
    hide EnoughAC, DecodeAC, SymbolsBelow;
  }

  lemma EndOfBlockCode(block: seq<int>, ac: Entries, run: nat, tail: seq<bool>)
    requires |block| == 64 && EncodableAC(block, ac, 64, run)
    ensures EncodeAC(block, ac, 64, run) + tail == if run > 0 then CodeOf(ac, EOB) + tail else tail
    ensures run > 0 ==> Present(ac, EOB)
    ensures RestorableAC(block, ac, 64, run) <==> (run > 0 ==> Usable(ac, EOB))
  {
    hide CodeOf, OnRow;
  }

  lemma ResolveEnd(block: seq<int>, ac: Entries, run: nat, j: nat, tail: seq<bool>, table: seq<int>)
    requires |block| == 64 && j + run == 63 && EncodableAC(block, ac, 64, run)
    requires Decodable(ac) && SymbolsBelow(ac, 256)
    requires Written(table, block, j) && (forall i :: j < i < 64 ==> block[i] == 0)
    requires |tail| >= AHEAD
    ensures Resolves(block, ac, 64, run, EncodeAC(block, ac, 64, run) + tail, table, j, tail)
  {
    EndOfBlockCode(block, ac, run, tail);
    hide EncodeAC, EncodableAC, RestorableAC, SymbolsBelow, Decodable, CodeOf, OnRow, LookUp;
    if run == 0 {
    } else if Usable(ac, EOB) {
      ReadsCode(ac, EOB, tail);
      StepEob(ac, CodeOf(ac, EOB) + tail, tail, table, j);
    } else {
      LastRowUnread(ac, EOB, tail);
      StepUnread(ac, CodeOf(ac, EOB) + tail, table, j);
    }
  }

  lemma LeadsToCompletion(block: seq<int>, ac: Entries, bits: seq<bool>, table: seq<int>, j: nat,
                          rest: seq<bool>, after: seq<int>, k: nat, tail: seq<bool>)
    requires |block| == 64 && Leads(bits, ac, table, j, rest, after, k) && Completes(block, ac, rest, after, k, tail)
    ensures Completes(block, ac, bits, table, j, tail)
  {
    hide EnoughAC, DecodeAC, Written;
  }

  /** What a coefficient other than 0 needs, besides what comes after it. */
  lemma CoefficientCodes(block: seq<int>, ac: Entries, k: nat, run: nat)
    requires |block| == 64 && k < 64 && block[k] != 0 && EncodableAC(block, ac, k, run)
    ensures 0 < SizeOf(block[k]) <= 15 && EncodableAC(block, ac, k + 1, 0)
    ensures (run >= 16 ==> Present(ac, ZRL)) && Present(ac, 16 * (run % 16) + SizeOf(block[k]))
    ensures RestorableAC(block, ac, k, run) <==>
            && (run >= 16 ==> Usable(ac, ZRL)) && Usable(ac, 16 * (run % 16) + SizeOf(block[k]))
            && RestorableAC(block, ac, k + 1, 0)
  {
    hide OnRow, BitSize;
    NonZeroSize(block[k]);
  }

  lemma TableIndex()
    ensures TABLE_SIZE == 128
  {}

  lemma ResolveCoefficient(block: seq<int>, ac: Entries, k: nat, run: nat, j: nat, tail: seq<bool>, table: seq<int>)
    requires |block| == 64 && j + run + 1 == k < 64 && block[k] != 0
    requires EncodableAC(block, ac, k, run) && EncodableAC(block, ac, k + 1, 0)
    requires Decodable(ac) && SymbolsBelow(ac, 256)
    requires |table| == TABLE_SIZE && |tail| >= AHEAD
    requires Resolves(block, ac, k + 1, 0, EncodeAC(block, ac, k + 1, 0) + tail, table[k := block[k]], k, tail)
    ensures Resolves(block, ac, k, run, EncodeAC(block, ac, k, run) + tail, table, j, tail)
  {
    hide *;
    TableIndex();
    CoefficientCodes(block, ac, k, run);
    var more := EncodeAC(block, ac, k + 1, 0) + tail;
    var bits := EncodeAC(block, ac, k, run) + tail;
    EncodeCoefficient(block, ac, k, run, tail, more);
    if (run >= 16 ==> Usable(ac, ZRL)) && Usable(ac, 16 * (run % 16) + SizeOf(block[k])) {
      DecodeRunAndValue(ac, run, block[k], more, bits, table, j, k);
      ResolveOn(block, ac, k, run, bits, table, j, more, table[k := block[k]], tail);
    } else {
      BreakAtCode(ac, run, block[k], more, bits, table, j, k);
      ResolveBroken(block, ac, k, run, bits, table, j, tail);
    }
  }

  lemma ResolveOn(block: seq<int>, ac: Entries, k: nat, run: nat, bits: seq<bool>, table: seq<int>, j: nat,
                  more: seq<bool>, after: seq<int>, tail: seq<bool>)
    requires |block| == 64 && k < 64 && Leads(bits, ac, table, j, more, after, k)
    requires RestorableAC(block, ac, k, run) <==> RestorableAC(block, ac, k + 1, 0)
    requires Resolves(block, ac, k + 1, 0, more, after, k, tail)
    ensures Resolves(block, ac, k, run, bits, table, j, tail)
  {
    hide Leads, RestorableAC, Completes, Breaks;
    if RestorableAC(block, ac, k, run) {
      LeadsToCompletion(block, ac, bits, table, j, more, after, k, tail);
    } else {
      LeadsToBreak(ac, bits, table, j, more, after, k);
    }
  }

  lemma ResolveBroken(block: seq<int>, ac: Entries, k: nat, run: nat, bits: seq<bool>, table: seq<int>, j: nat,
                      tail: seq<bool>)
    requires |block| == 64 && k <= 64 && !RestorableAC(block, ac, k, run) && Breaks(ac, bits, table, j)
    ensures Resolves(block, ac, k, run, bits, table, j, tail)
  {
    hide RestorableAC, Completes, Breaks;
  }

  /** The first code of a coefficient that is on the last row breaks the decoding off. */
  lemma BreakAtCode(ac: Entries, run: nat, v: int, tail: seq<bool>, bits: seq<bool>, table: seq<int>, j: nat, k: nat)
    requires Decodable(ac) && SymbolsBelow(ac, 256) && 0 < SizeOf(v) <= 15
    requires (run >= 16 ==> Present(ac, ZRL)) && Present(ac, 16 * (run % 16) + SizeOf(v))
    requires !((run >= 16 ==> Usable(ac, ZRL)) && Usable(ac, 16 * (run % 16) + SizeOf(v)))
    requires |table| == TABLE_SIZE && k == j + run + 1 <= 63
    requires |tail| >= AHEAD
    requires bits == ZeroRuns(ac, run / 16) + (CodeOf(ac, 16 * (run % 16) + SizeOf(v)) + (MagnitudeBits(v) + tail))
    ensures Breaks(ac, bits, table, j)
  {
    hide Leads, Decodable, SymbolsBelow, CodeOf, MagnitudeBits, OnRow, Breaks, LookUp, BitSize;
    var symbol := 16 * (run % 16) + SizeOf(v);
    var coeff := CodeOf(ac, symbol) + (MagnitudeBits(v) + tail);
    if run >= 16 && !Usable(ac, ZRL) {
      var rest := ZeroRuns(ac, run / 16 - 1) + coeff;
      ZeroRunsSplit(ac, run / 16, coeff);
      LastRowUnread(ac, ZRL, rest);
      StepUnread(ac, bits, table, j);
    } else {
      var i := j + 16 * (run / 16);
      DecodeZeroRuns(ac, run / 16, coeff, table, j, i);
      LastRowUnread(ac, symbol, MagnitudeBits(v) + tail);
      StepUnread(ac, coeff, table, i);
      LeadsToBreak(ac, bits, table, j, coeff, table, i);
    }
  }

  /** The AC loop completes the block exactly when no symbol that is left is on the last row. */
  lemma {:induction false} DecodeEncodedAC(block: seq<int>, ac: Entries, k: nat, run: nat, j: nat,
                                          tail: seq<bool>, table: seq<int>)
    requires |block| == 64 && j + run + 1 == k <= 64 && EncodableAC(block, ac, k, run)
    requires Decodable(ac) && SymbolsBelow(ac, 256)
    requires Written(table, block, j) && (forall i :: j < i < k ==> block[i] == 0)
    requires |tail| >= AHEAD
    ensures Resolves(block, ac, k, run, EncodeAC(block, ac, k, run) + tail, table, j, tail)
    decreases 64 - k
  {
    hide DecodeAC, Decodable, SymbolsBelow, Completes, Breaks, OnRow;
    if k == 64 {
      ResolveEnd(block, ac, run, j, tail, table);
    } else if block[k] == 0 {
      DecodeEncodedAC(block, ac, k + 1, run + 1, j, tail, table);
    } else {
      CoefficientCodes(block, ac, k, run);
      DecodeEncodedAC(block, ac, k + 1, 0, k, tail, table[k := block[k]]);
      ResolveCoefficient(block, ac, k, run, j, tail, table);
    }
  }

  lemma EncodeCoefficient(block: seq<int>, ac: Entries, k: nat, run: nat, tail: seq<bool>, more: seq<bool>)
    requires |block| == 64 && k < 64 && block[k] != 0 && EncodableAC(block, ac, k, run)
    requires more == EncodeAC(block, ac, k + 1, 0) + tail
    ensures EncodeAC(block, ac, k, run) + tail ==
            ZeroRuns(ac, run / 16)
            + (CodeOf(ac, 16 * (run % 16) + SizeOf(block[k])) + (MagnitudeBits(block[k]) + more))
  {}

  lemma DecodeRunAndValue(ac: Entries, run: nat, v: int, tail: seq<bool>, bits: seq<bool>, table: seq<int>,
                          j: nat, k: nat)
    requires Decodable(ac) && SymbolsBelow(ac, 256) && 0 < SizeOf(v) <= 15
    requires (run >= 16 ==> Usable(ac, ZRL)) && Usable(ac, 16 * (run % 16) + SizeOf(v))
    requires |table| == TABLE_SIZE && k == j + run + 1 <= 63
    requires |tail| >= AHEAD
    requires bits == ZeroRuns(ac, run / 16) + (CodeOf(ac, 16 * (run % 16) + SizeOf(v)) + (MagnitudeBits(v) + tail))
    ensures Leads(bits, ac, table, j, tail, table[k := v], k)
  {
    hide Leads, Decodable, SymbolsBelow, CodeOf, MagnitudeBits;
    var coeff := CodeOf(ac, 16 * (run % 16) + SizeOf(v)) + (MagnitudeBits(v) + tail);
    var i := j + 16 * (run / 16);
    DecodeZeroRuns(ac, run / 16, coeff, table, j, i);
    ReadCoefficient(ac, run % 16, v, tail, table, i, k);
    LeadsOn(bits, ac, table, j, coeff, table, i, tail, table[k := v], k);
  }

  lemma ReadDC(block: seq<int>, dc: Entries, ac: Entries, pred: int, m: seq<bool>, more: seq<bool>, initial: seq<int>)
    requires |initial| == TABLE_SIZE && |block| == 64 && TablesReadable(dc, ac) && Decodable(dc)
    requires m == MagnitudeBits(block[0] - pred) && |m| <= 16 && Usable(dc, |m|)
    requires |more| >= AHEAD && EnoughAC(more, ac, 0)
    ensures EnoughBlock(CodeOf(dc, |m|) + (m + more), dc, ac)
    ensures DecodeBlock(CodeOf(dc, |m|) + (m + more), dc, ac, pred, initial)
            == FinishBlock(more, ac, block[0], initial)
  {
    hide FinishBlock, DecodeBlock, EnoughBlock, EnoughAC, Decodable, CodeOf, MagnitudeBits, RowOf, LookUp, Extend,
      BitsValue, SymbolsBelow, Reads, BitSize;
    ReadsCode(dc, |m|, m + more);
    ExtendMagnitude(block[0] - pred);
    StepDC(CodeOf(dc, |m|) + (m + more), dc, ac, pred, m, more, initial, block[0]);
  }

  lemma StepDC(bits: seq<bool>, dc: Entries, ac: Entries, pred: int, m: seq<bool>, more: seq<bool>,
               initial: seq<int>, value: int)
    requires value == pred + Extend(BitsValue(m), |m|)
    requires |initial| == TABLE_SIZE && TablesReadable(dc, ac) && |m| <= 16 && Reads(dc, bits, |m|, m + more)
    requires |more| >= AHEAD && EnoughAC(more, ac, 0)
    ensures EnoughBlock(bits, dc, ac)
    ensures DecodeBlock(bits, dc, ac, pred, initial) == FinishBlock(more, ac, value, initial)
  {
    hide FinishBlock, Extend, BitsValue, EnoughAC, FindFrom;
    assert (m + more)[..|m|] == m && (m + more)[|m|..] == more;
  }

  lemma LostDC(dc: Entries, ac: Entries, pred: int, bits: seq<bool>, initial: seq<int>)
    requires |initial| == TABLE_SIZE && TablesReadable(dc, ac) && Unread(dc, bits)
    ensures EnoughBlock(bits, dc, ac) && !DecodeBlock(bits, dc, ac, pred, initial).ok
  {
    hide FindFrom, EnoughAC;
  }

  lemma EncodeBlockSplit(block: seq<int>, dc: Entries, ac: Entries, pred: int, tail: seq<bool>)
    requires Encodable(block, dc, ac, pred)
    ensures EncodableAC(block, ac, 1, 0) && SizeOf(block[0] - pred) <= 16 && Present(dc, SizeOf(block[0] - pred))
    ensures EncodeBlock(block, dc, ac, pred) + tail ==
            CodeOf(dc, SizeOf(block[0] - pred))
            + (MagnitudeBits(block[0] - pred) + (EncodeAC(block, ac, 1, 0) + tail))
    ensures Restorable(block, dc, ac, pred) <==>
            Usable(dc, SizeOf(block[0] - pred)) && RestorableAC(block, ac, 1, 0)
  {
    hide CodeOf, MagnitudeBits, EncodeAC, SizeOf, CodedAC, OnRow;
  }

  /** What is left of a block once its DC value has been read. */
  lemma ResolveBlock(block: seq<int>, ac: Entries, bits: seq<bool>, initial: seq<int>, tail: seq<bool>)
    requires |initial| == TABLE_SIZE && |block| == 64
    requires Resolves(block, ac, 1, 0, bits, Cleared(initial)[0 := block[0]], 0, tail)
    ensures SymbolsBelow(ac, 256) && EnoughAC(bits, ac, 0)
    ensures var r := FinishBlock(bits, ac, block[0], initial);
            && (r.ok <==> RestorableAC(block, ac, 1, 0))
            && (r.ok ==> r.table[..64] == block && r.dc == block[0] && r.rest == tail)
  {
    hide DecodeAC, EnoughAC, SymbolsBelow, RestorableAC;
  }

  /**
    Reading an encoded block: it is accepted exactly when none of its symbols is on the last row of its table, and
    then it is restored, the predictor moves to its DC value, and reading stops at its end.
   */
  lemma DecodeEncodedBlock(block: seq<int>, dc: Entries, ac: Entries, pred: int, initial: seq<int>, tail: seq<bool>)
    requires |initial| == TABLE_SIZE && TablesReadable(dc, ac) && Decodable(dc) && Decodable(ac)
    requires Encodable(block, dc, ac, pred)
    requires |tail| >= AHEAD
    ensures EnoughBlock(EncodeBlock(block, dc, ac, pred) + tail, dc, ac)
    ensures var r := DecodeBlock(EncodeBlock(block, dc, ac, pred) + tail, dc, ac, pred, initial);
            && (r.ok <==> Restorable(block, dc, ac, pred))
            && (r.ok ==> r.table[..64] == block && r.dc == block[0] && r.rest == tail)
  {
    hide DecodeAC, EnoughAC, EnoughBlock, DecodeBlock, EncodeBlock, EncodeAC, CodedAC, Decodable, SymbolsBelow,
      CodeOf, OnRow, MagnitudeBits, FinishBlock, Completes, Breaks, BitSize, LookUp;
    EncodeBlockSplit(block, dc, ac, pred, tail);
    var m := MagnitudeBits(block[0] - pred);
    var more := EncodeAC(block, ac, 1, 0) + tail;
    if Usable(dc, |m|) {
      DecodeEncodedAC(block, ac, 1, 0, 0, tail, Cleared(initial)[0 := block[0]]);
      ResolveBlock(block, ac, more, initial, tail);
      ReadDC(block, dc, ac, pred, m, more, initial);
    } else {
      LastRowUnread(dc, |m|, m + more);
      LostDC(dc, ac, pred, CodeOf(dc, |m|) + (m + more), initial);
    }
  }

  // ----- only the first 64 entries matter -----

  lemma {:induction false} SameACPrefix(bits: seq<bool>, ac: Entries, t: seq<int>, u: seq<int>, j: nat)
    requires |t| == |u| == TABLE_SIZE && t[..64] == u[..64] && j <= 78
    requires SymbolsBelow(ac, 256) && EnoughAC(bits, ac, j)
    ensures var r, s := DecodeAC(bits, ac, t, j), DecodeAC(bits, ac, u, j);
            r.ok == s.ok && r.j == s.j && r.rest == s.rest && r.table[..64] == s.table[..64]
    decreases TABLE_SIZE - j
  {
    if j < 63 && LookUp(ac, bits).Some? {
      var e := LookUp(ac, bits).value;
      var b := bits[e.len..];
      var val := e.symbol % 16;
      if val == 0 {
        if e.symbol / 16 == 15 { SameACPrefix(b, ac, t, u, j + 16); }
      } else {
        var k := j + e.symbol / 16 + 1;
        var v := Extend(BitsValue(b[..val]), val);
        assert t[k := v][..64] == u[k := v][..64] by {
          if k < 64 { assert t[k := v][..64] == t[..64][k := v] && u[k := v][..64] == u[..64][k := v]; }
        }
        SameACPrefix(b[val..], ac, t[k := v], u[k := v], k);
      }
    }
  }

  /** What the block contained before does not show in the coefficients. */
  lemma SameBlock(bits: seq<bool>, dc: Entries, ac: Entries, pred: int, t: seq<int>, u: seq<int>)
    requires |t| == |u| == TABLE_SIZE && TablesReadable(dc, ac) && EnoughBlock(bits, dc, ac)
    ensures var r, s := DecodeBlock(bits, dc, ac, pred, t), DecodeBlock(bits, dc, ac, pred, u);
            r.ok == s.ok && r.dc == s.dc && r.rest == s.rest && r.table[..64] == s.table[..64]
  {
    hide DecodeAC, BitsValue, Extend;
    assert Cleared(t)[..64] == Cleared(u)[..64];
    if LookUp(dc, bits).Some? {
      var e := LookUp(dc, bits).value;
      var b := bits[e.len..];
      var value := pred + Extend(BitsValue(b[..e.symbol]), e.symbol);
      var t', u' := Cleared(t)[0 := value], Cleared(u)[0 := value];
      assert t'[..64] == Cleared(t)[..64][0 := value] && u'[..64] == Cleared(u)[..64][0 := value];
      SameACPrefix(b[e.symbol..], ac, t', u', 0);
    }
  }

  // ----- any bits at all -----

  /** `rest` is what is left of `bits` after some of them have been consumed. */
  predicate Suffix(rest: seq<bool>, bits: seq<bool>) {
    |rest| <= |bits| && bits[|bits| - |rest|..] == rest
  }

  lemma SuffixOn(a: seq<bool>, n: nat, b: seq<bool>)
    requires n <= |a| && Suffix(b, a[n..])
    ensures Suffix(b, a)
  {
    assert a[n..][|a[n..]| - |b|..] == a[|a| - |b|..];
  }

  /** Coefficients up to j and beyond the last index reached are left alone, and a failure shows in what is left. */
  ghost predicate Contained(bits: seq<bool>, ac: Entries, table: seq<int>, j: nat, r: AcResult) {
    && |r.table| == |table| == TABLE_SIZE && j <= r.j <= 78
    && (forall i :: 0 <= i <= j ==> r.table[i] == table[i])
    && (forall i :: r.j < i < TABLE_SIZE ==> r.table[i] == table[i])
    && Suffix(r.rest, bits)
    && (!r.ok ==> r.j < 63 && |r.rest| >= 16 && LookUp(ac, r.rest) == None)
  }

  lemma {:induction false} ACContained(bits: seq<bool>, ac: Entries, table: seq<int>, j: nat)
    requires |table| == TABLE_SIZE && j <= 78 && SymbolsBelow(ac, 256) && EnoughAC(bits, ac, j)
    ensures Contained(bits, ac, table, j, DecodeAC(bits, ac, table, j))
    decreases TABLE_SIZE - j
  {
    hide Extend, BitsValue, FindFrom;
    if j < 63 && LookUp(ac, bits).Some? {
      var e := LookUp(ac, bits).value;
      var b := bits[e.len..];
      var val := e.symbol % 16;
      var r := DecodeAC(bits, ac, table, j);
      if val == 0 {
        if e.symbol / 16 == 15 { ACContained(b, ac, table, j + 16); }
        SuffixOn(bits, e.len, r.rest);
      } else {
        var k := j + e.symbol / 16 + 1;
        ACContained(b[val..], ac, table[k := Extend(BitsValue(b[..val]), val)], k);
        SuffixOn(b, val, r.rest);
        SuffixOn(bits, e.len, r.rest);
      }
    }
  }

  /**
    Whatever the bits: entries from 79 on are never written, a block is accepted only if nothing past
    coefficient 63 was written, and the bits consumed come off the front.
   */
  lemma BlockContained(bits: seq<bool>, dc: Entries, ac: Entries, pred: int, initial: seq<int>)
    requires |initial| == TABLE_SIZE && TablesReadable(dc, ac) && EnoughBlock(bits, dc, ac)
    ensures var r := DecodeBlock(bits, dc, ac, pred, initial);
            && r.table[79..] == initial[79..]
            && (r.ok ==> r.table[64..] == initial[64..] && r.table[0] == r.dc)
            && Suffix(r.rest, bits)
  {
    hide DecodeAC, Extend, BitsValue, FindFrom;
    var cleared := Cleared(initial);
    forall i | 64 <= i < TABLE_SIZE ensures cleared[i] == initial[i] {
      assert cleared[64..][i - 64] == initial[64..][i - 64];
    }
    if LookUp(dc, bits).Some? {
      var e := LookUp(dc, bits).value;
      var b := bits[e.len..];
      var value := pred + Extend(BitsValue(b[..e.symbol]), e.symbol);
      ACContained(b[e.symbol..], ac, cleared[0 := value], 0);
      var r := DecodeBlock(bits, dc, ac, pred, initial);
      SuffixOn(b, e.symbol, r.rest);
      SuffixOn(bits, e.len, r.rest);
    }
  }
}
