/**
  Canonical Huffman codes as the DHT loop assigns them (section C.2 of ITU-T T.81),
  and the linear search that decodes them.
 */
module HuffmanTables {
  import opened BitStrings
  import opened Collections

  type CodeLength = n: int | 1 <= n <= 16 witness 1

  /** One row of a lookup table: a code of `len` bits and the symbol it stands for. */
  datatype Entry = Entry(code: nat, len: CodeLength, symbol: nat) {
    /** The code as it appears in the scan. */
    function Bits(): seq<bool> {
      NatBits(code, len)
    }

    /** Where the codes that start with this one begin among the 16-bit numbers. */
    function Left(): nat {
      Scale(code, 16 - len)
    }

    /** How many 16-bit numbers start with this code. */
    function Width(): nat {
      Pow2(16 - len)
    }
  }

  type Entries = seq<Entry>

  /** How many codes have length len..16. */
  function Total(counts: seq<nat>, len: nat): nat
    requires |counts| == 16 && 1 <= len <= 17
    decreases |counts| + 1 - len
  {
    if len == 17 then 0 else counts[len - 1] + Total(counts, len + 1)
  }

  /** Codes code, code+1, ... of the same length. */
  function Row(code: nat, len: nat, symbols: seq<nat>): (es: Entries)
    requires 1 <= len <= 16
    ensures |es| == |symbols|
    ensures forall i :: 0 <= i < |es| ==> es[i] == Entry(code + i, len, symbols[i])
  {
    seq(|symbols|, i requires 0 <= i < |symbols| => Entry(code + i, len, symbols[i]))
  }

  /** The rows for lengths len..16, the first of which gets `code`. */
  function CanonicalFrom(counts: seq<nat>, symbols: seq<nat>, len: nat, code: nat): (es: Entries)
    requires |counts| == 16 && 1 <= len <= 17
    requires Total(counts, len) <= |symbols|
    ensures |es| == Total(counts, len)
    decreases |counts| + 1 - len
  {
    if len == 17 then []
    else
      var n := counts[len - 1];
      Row(code, len, symbols[..n]) + CanonicalFrom(counts, symbols[n..], len + 1, 2 * (code + n))
  }

  function Canonical(counts: seq<nat>, symbols: seq<nat>): (es: Entries)
    requires |counts| == 16 && Total(counts, 1) <= |symbols|
    ensures |es| == Total(counts, 1)
  {
    CanonicalFrom(counts, symbols, 1, 0)
  }

  /** Number of 16-bit numbers taken by a list of codes. */
  function Space(es: Entries): nat {
    if es == [] then 0 else Space(es[..|es| - 1]) + es[|es| - 1].Width()
  }

  /** Each code starts where the ones before it end. */
  ghost predicate Tiles(es: Entries) {
    forall k :: 0 <= k < |es| ==> es[k].Left() == Space(es[..k])
  }

  ghost predicate CodesFit(es: Entries) {
    forall k :: 0 <= k < |es| ==> es[k].code < Pow2(es[k].len)
  }

  /** The space that the length counts alone ask for, out of 2^16. */
  function KraftSum(counts: seq<nat>, len: nat): nat
    requires |counts| == 16 && 1 <= len <= 17
    decreases |counts| + 1 - len
  {
    if len == 17 then 0 else Scale(counts[len - 1], 16 - len) + KraftSum(counts, len + 1)
  }

  ghost predicate PrefixFree(es: Entries) {
    forall i, j :: 0 <= i < |es| && 0 <= j < |es| && i != j ==> !(es[i].Bits() <= es[j].Bits())
  }

  predicate Matches(e: Entry, bits: seq<bool>)
    requires |bits| >= 16
  {
    bits[..e.len] == e.Bits()
  }

  /** The first row from i on whose code the bits start with, or |es|. */
  function FindFrom(es: Entries, bits: seq<bool>, i: nat): (k: nat)
    requires i <= |es| && |bits| >= 16
    ensures i <= k <= |es|
    decreases |es| - i
  {
    if i == |es| || Matches(es[i], bits) then i else FindFrom(es, bits, i + 1)
  }

  /**
    What the search loop answers. The row index is advanced before it is compared with the table
    size, so a match on the last row is reported as "not found".
   */
  function LookUp(es: Entries, bits: seq<bool>): Option<Entry>
    requires |bits| >= 16
  {
    var k := FindFrom(es, bits, 0);
    if k + 1 < |es| then Some(es[k]) else None
  }

  // ----- the codes tile the 16-bit numbers -----

  lemma {:induction false} SpaceAppend(a: Entries, b: Entries)
    ensures Space(a + b) == Space(a) + Space(b)
  {
    if b == [] {
      assert a + b == a;
    } else {
      var b' := b[..|b| - 1];
      SpaceAppend(a, b');
      assert (a + b)[..|a + b| - 1] == a + b';
    }
  }

  lemma {:induction false} RowSpace(code: nat, len: nat, symbols: seq<nat>)
    requires 1 <= len <= 16
    ensures Space(Row(code, len, symbols)) == Scale(|symbols|, 16 - len)
  {
    if symbols == [] {
      ScaleAdd(0, 0, 16 - len);
    } else {
      var s' := symbols[..|symbols| - 1];
      RowSpace(code, len, s');
      var es := Row(code, len, symbols);
      assert es[..|es| - 1] == Row(code, len, s');
      ScaleAdd(|s'|, 1, 16 - len);
    }
  }

  /** The first row of the table and the rest. */
  lemma CanonicalSplit(counts: seq<nat>, symbols: seq<nat>, len: nat, code: nat)
    requires |counts| == 16 && 1 <= len <= 16
    requires Total(counts, len) <= |symbols|
    ensures CanonicalFrom(counts, symbols, len, code) ==
            Row(code, len, symbols[..counts[len - 1]]) +
            CanonicalFrom(counts, symbols[counts[len - 1]..], len + 1, 2 * (code + counts[len - 1]))
  {}

  /** Row k starts where the rows before it end, counted from `base`. */
  ghost predicate TileAt(es: Entries, k: nat, base: nat) {
    k < |es| && es[k].Left() == base + Space(es[..k])
  }

  lemma TilesRow(code: nat, len: nat, symbols: seq<nat>, rest: Entries, k: nat, shift: nat)
    requires 1 <= len && len + shift == 16 && k < |symbols|
    ensures TileAt(Row(code, len, symbols) + rest, k, Scale(code, shift))
  {
    hide Space, Scale, Row;
    var es := Row(code, len, symbols) + rest;
    assert es[..k] == Row(code, len, symbols[..k]);
    assert es[k] == Entry(code + k, len, symbols[k]);
    RowSpace(code, len, symbols[..k]);
    ScaleAdd(code, k, shift);
  }

  lemma TilesRest(code: nat, len: nat, symbols: seq<nat>, n: nat, rest: Entries, m: nat, k: nat, shift: nat)
    requires 1 <= len && len + shift == 15 && n == |symbols| && k == n + m
    requires TileAt(rest, m, Scale(2 * (code + n), shift))
    ensures TileAt(Row(code, len, symbols) + rest, k, Scale(code, shift + 1))
  {
    var row := Row(code, len, symbols);
    ScaleDouble(code + n, shift);
    ScaleAdd(code, n, shift + 1);
    RowSpace(code, len, symbols);
    assert (row + rest)[..k] == row + rest[..m];
    SpaceAppend(row, rest[..m]);
  }

  lemma {:induction false} TilesFrom(counts: seq<nat>, symbols: seq<nat>, len: nat, code: nat, k: nat, shift: nat)
    requires |counts| == 16 && 1 <= len && len + shift == 16
    requires Total(counts, len) <= |symbols|
    requires k < Total(counts, len)
    ensures TileAt(CanonicalFrom(counts, symbols, len, code), k, Scale(code, shift))
    decreases |counts| + 1 - len
  {
    hide *;
    var n := counts[len - 1];
    TotalStep(counts, len);
    CanonicalSplit(counts, symbols, len, code);
    var rest := CanonicalFrom(counts, symbols[n..], len + 1, 2 * (code + n));
    if k < n {
      TilesRow(code, len, symbols[..n], rest, k, shift);
    } else {
      LastRow(counts, len, k - n);
      TilesFrom(counts, symbols[n..], len + 1, 2 * (code + n), k - n, shift - 1);
      TilesRest(code, len, symbols[..n], n, rest, k - n, k, shift - 1);
    }
  }

  lemma TotalStep(counts: seq<nat>, len: nat)
    requires |counts| == 16 && 1 <= len <= 16
    ensures Total(counts, len) == counts[len - 1] + Total(counts, len + 1)
  {}

  lemma LastRow(counts: seq<nat>, len: nat, m: nat)
    requires |counts| == 16 && 1 <= len <= 16 && m < Total(counts, len + 1)
    ensures len < 16
  {}

  /** The codes of a table built by the DHT loop lie one after the other, from 0 on. */
  lemma CanonicalTiles(counts: seq<nat>, symbols: seq<nat>)
    requires |counts| == 16 && Total(counts, 1) <= |symbols|
    ensures Tiles(Canonical(counts, symbols))
  {
    hide CanonicalFrom, Space, Entry.Left, Total;
    var es := Canonical(counts, symbols);
    forall k | 0 <= k < |es| ensures es[k].Left() == Space(es[..k]) {
      TilesFrom(counts, symbols, 1, 0, k, 15);
      ScaleAdd(0, 0, 15);
    }
  }

  lemma {:induction false} SpaceFrom(counts: seq<nat>, symbols: seq<nat>, len: nat, code: nat)
    requires |counts| == 16 && 1 <= len <= 17
    requires Total(counts, len) <= |symbols|
    ensures Space(CanonicalFrom(counts, symbols, len, code)) == KraftSum(counts, len)
    decreases |counts| + 1 - len
  {
    if len < 17 {
      var n := counts[len - 1];
      CanonicalSplit(counts, symbols, len, code);
      SpaceFrom(counts, symbols[n..], len + 1, 2 * (code + n));
      RowSpace(code, len, symbols[..n]);
      SpaceAppend(Row(code, len, symbols[..n]), CanonicalFrom(counts, symbols[n..], len + 1, 2 * (code + n)));
    }
  }

  lemma {:induction false} SpacePrefix(es: Entries, k: nat)
    requires k <= |es|
    ensures Space(es[..k]) <= Space(es)
  {
    assert es == es[..k] + es[k..];
    SpaceAppend(es[..k], es[k..]);
  }

  /** All codes fit their length exactly when the counts meet the Kraft inequality. */
  lemma FitIffKraft(counts: seq<nat>, symbols: seq<nat>)
    requires |counts| == 16 && Total(counts, 1) <= |symbols|
    ensures CodesFit(Canonical(counts, symbols)) <==> KraftSum(counts, 1) <= 65536
  {
    var es := Canonical(counts, symbols);
    CanonicalTiles(counts, symbols);
    SpaceFrom(counts, symbols, 1, 0);
    FitIffSpace(es);
  }

  lemma FitIffSpace(es: Entries)
    requires Tiles(es)
    ensures CodesFit(es) <==> Space(es) <= 65536
  {
    if Space(es) <= 65536 {
      forall k | 0 <= k < |es| ensures es[k].code < Pow2(es[k].len) {
        FitsIffEnds(es, k);
        SpacePrefix(es, k + 1);
      }
    } else {
      var k := |es| - 1;
      assert es[..k + 1] == es;
      FitsIffEnds(es, k);
      assert !(es[k].code < Pow2(es[k].len));
    }
  }

  lemma FitsIffEnds(es: Entries, k: nat)
    requires Tiles(es) && k < |es|
    ensures Space(es[..k + 1]) == Scale(es[k].code + 1, 16 - es[k].len)
    ensures es[k].code < Pow2(es[k].len) <==> Space(es[..k + 1]) <= 65536
  {
    var e := es[k];
    assert es[..k + 1][..k] == es[..k];
    ScaleAdd(e.code, 1, 16 - e.len);
    ScaleScale(1, e.len, 16 - e.len);
    ScaleOrder(e.code + 1, Pow2(e.len), 16 - e.len);
    Pow2Values();
  }

  // ----- at most one code matches -----

  /** Bits that start with a code lie in the interval of that code. */
  lemma MatchInterval(e: Entry, bits: seq<bool>)
    requires e.code < Pow2(e.len) && |bits| >= 16
    requires Matches(e, bits)
    ensures e.Left() <= BitsValue(bits[..16]) < e.Left() + e.Width()
  {
    assert bits[..16] == bits[..e.len] + bits[e.len..16];
    BitsValueConcat(bits[..e.len], bits[e.len..16]);
    BitsValueNatBits(e.code, e.len);
    BitsValueBound(bits[e.len..16]);
  }

  lemma LaterStartsAfter(es: Entries, i: nat, j: nat)
    requires Tiles(es) && i < j < |es|
    ensures es[i].Left() + es[i].Width() <= es[j].Left()
  {
    assert es[..j][..i + 1] == es[..i + 1];
    SpacePrefix(es[..j], i + 1);
    assert es[..i + 1][..i] == es[..i];
  }

  lemma NoTwoMatches(es: Entries, i: nat, j: nat, bits: seq<bool>)
    requires Tiles(es) && CodesFit(es) && |bits| >= 16
    requires i < j < |es|
    ensures !(Matches(es[i], bits) && Matches(es[j], bits))
  {
    if Matches(es[i], bits) && Matches(es[j], bits) {
      LaterStartsAfter(es, i, j);
      MatchInterval(es[i], bits);
      MatchInterval(es[j], bits);
    }
  }

  lemma {:induction false} FindFromFirst(es: Entries, bits: seq<bool>, i: nat)
    requires i <= |es| && |bits| >= 16
    ensures var k := FindFrom(es, bits, i);
            && (forall m :: i <= m < k ==> !Matches(es[m], bits))
            && (k < |es| ==> Matches(es[k], bits))
    decreases |es| - i
  {
    if i < |es| && !Matches(es[i], bits) { FindFromFirst(es, bits, i + 1); }
  }

  /** The decoder returns the symbol of the code at the front of the bits, except for the last row. */
  lemma LookUpCode(es: Entries, k: nat, bits: seq<bool>)
    requires Tiles(es) && CodesFit(es) && |bits| >= 16 && k < |es|
    requires es[k].Bits() <= bits
    ensures LookUp(es, bits) == if k + 1 < |es| then Some(es[k]) else None
  {
    var m := FindFrom(es, bits, 0);
    FindFromFirst(es, bits, 0);
    assert m <= k by { assert Matches(es[k], bits); }
    if m < k { NoTwoMatches(es, m, k, bits); }
  }

  // ----- prefix-free exactly under the Kraft inequality -----

  lemma FitMakesPrefixFree(es: Entries)
    requires Tiles(es) && CodesFit(es)
    ensures PrefixFree(es)
  {
    forall i, j | 0 <= i < |es| && 0 <= j < |es| && i != j ensures !(es[i].Bits() <= es[j].Bits()) {
      if es[i].Bits() <= es[j].Bits() {
        var bits := es[j].Bits() + Zeros(16);
        assert Matches(es[i], bits) && Matches(es[j], bits);
        NoTwoMatches(es, if i < j then i else j, if i < j then j else i, bits);
      }
    }
  }

  ghost predicate LensFrom(es: Entries, len: nat) {
    && (forall i :: 0 <= i < |es| ==> len <= es[i].len)
    && (forall i, j :: 0 <= i < j < |es| ==> es[i].len <= es[j].len)
  }

  lemma {:induction false} LengthsSorted(counts: seq<nat>, symbols: seq<nat>, len: nat, code: nat)
    requires |counts| == 16 && 1 <= len <= 17
    requires Total(counts, len) <= |symbols|
    ensures LensFrom(CanonicalFrom(counts, symbols, len, code), len)
    decreases |counts| + 1 - len
  {
    if len < 17 {
      var n := counts[len - 1];
      CanonicalSplit(counts, symbols, len, code);
      LengthsSorted(counts, symbols[n..], len + 1, 2 * (code + n));
    }
  }

  lemma {:induction false} NatBitsWraps(len: nat)
    ensures NatBits(Pow2(len), len) == NatBits(0, len) == Zeros(len)
  {
    if len > 0 {
      NatBitsWraps(len - 1);
      assert Pow2(len) == 2 * Pow2(len - 1);
    }
  }

  lemma ZeroCodeFirst(es: Entries)
    requires Tiles(es) && es != []
    ensures es[0].code == 0
  {
    assert es[..0] == [];
    var n := 16 - es[0].len;
    ScaleAdd(0, 0, n);
    ScaleOrder(es[0].code, 0, n);
  }

  /** Without room for all codes, the first that does not fit wraps around to all zeros. */
  lemma OverflowBreaksPrefixes(es: Entries, k: nat)
    requires Tiles(es) && k < |es|
    requires es[0].len <= es[k].len
    requires Space(es[..k]) <= 65536 < Space(es[..k + 1])
    ensures k > 0 && es[0].Bits() <= es[k].Bits()
  {
    var e := es[k];
    FitsIffEnds(es, k);
    ZeroCodeFirst(es);
    Pow2Values();
    ScaleScale(1, e.len, 16 - e.len);
    ScaleOrder(e.code, Pow2(e.len), 16 - e.len);
    assert e.code == Pow2(e.len);
    ScaleOrder(1, 0, e.len);
    ScaleAdd(0, 0, e.len);
    NatBitsWraps(e.len);
    NatBitsWraps(es[0].len);
  }

  lemma {:induction false} FirstOverflow(es: Entries, n: nat) returns (k: nat)
    requires n <= |es| && Space(es[..n]) > 65536
    ensures k < n && Space(es[..k]) <= 65536 < Space(es[..k + 1])
  {
    assert n > 0 by { assert es[..0] == []; }
    if Space(es[..n - 1]) > 65536 {
      k := FirstOverflow(es, n - 1);
    } else {
      k := n - 1;
    }
  }

  lemma OverflowNotPrefixFree(es: Entries)
    requires Tiles(es) && !CodesFit(es)
    requires LensFrom(es, 1)
    ensures !PrefixFree(es)
  {
    FitIffSpace(es);
    assert es[..|es|] == es;
    var k := FirstOverflow(es, |es|);
    OverflowBreaksPrefixes(es, k);
  }

  /** A table built by the DHT loop is prefix-free exactly when its counts meet the Kraft inequality. */
  lemma PrefixFreeIffKraft(counts: seq<nat>, symbols: seq<nat>)
    requires |counts| == 16 && Total(counts, 1) <= |symbols|
    ensures PrefixFree(Canonical(counts, symbols)) <==> KraftSum(counts, 1) <= 65536
  {
    var es := Canonical(counts, symbols);
    CanonicalTiles(counts, symbols);
    FitIffKraft(counts, symbols);
    if CodesFit(es) {
      FitMakesPrefixFree(es);
    } else {
      LengthsSorted(counts, symbols, 1, 0);
      OverflowNotPrefixFree(es);
    }
  }
}
