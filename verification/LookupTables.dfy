/** The lookup arrays of the decoder and the loop that fills them from a DHT segment (section B.2.4.2 of ITU-T T.81). */
module LookupTables {
  import opened BitStrings
  import opened HuffmanTables
  import opened Word32

  const MAX_CODES := 162

  /** One row of `dht_lookup_*`: the arrays of one table. */
  class LookupTable {
    const code: array<Byte>
    const bits: array<bv32>
    const mask: array<bv32>
    const bitlen: array<Byte>
    var size: nat

    ghost predicate Valid() {
      && code.Length == bits.Length == mask.Length == bitlen.Length == MAX_CODES
      && bits != mask && code != bitlen
      && {code as object, bitlen} !! {bits as object, mask}
    }

    ghost function Repr(): set<object> {
      {this, code, bits, mask, bitlen}
    }

    /** Row k holds entry e. */
    ghost predicate Holds(k: nat, e: Entry)
      requires Valid() && k < MAX_CODES
      reads code, bits, mask, bitlen
    {
      && code[k] == e.symbol
      && bitlen[k] == e.len
      && Bits(bits[k]) == e.Bits() + Zeros(32 - e.len)
      && Bits(mask[k]) == Ones(e.len) + Zeros(32 - e.len)
    }

    ghost predicate HoldsAll(es: Entries)
      reads code, bits, mask, bitlen
    {
      && Valid() && |es| <= MAX_CODES
      && forall k :: 0 <= k < |es| ==> Holds(k, es[k])
    }

    ghost predicate Represents(es: Entries)
      reads this, code, bits, mask, bitlen
    {
      HoldsAll(es) && size == |es|
    }

    constructor ()
      ensures Valid() && fresh(Repr())
      ensures Represents([])
    {
      code := new Byte[MAX_CODES](_ => 0);
      bits := new bv32[MAX_CODES](_ => 0);
      mask := new bv32[MAX_CODES](_ => 0);
      bitlen := new Byte[MAX_CODES](_ => 0);
      size := 0;
    }

    /** Stores the row after the rows `es`. */
    method Store(ghost es: Entries, ind: nat, codeVal: nat, len: nat, symbol: Byte)
      requires HoldsAll(es) && ind == |es| < MAX_CODES && 1 <= len <= 16
      modifies code, bits, mask, bitlen
      ensures HoldsAll(es + [Entry(codeVal, len, symbol)])
    {
      code[ind] := symbol;
      bits[ind] := Shl(Word(codeVal), 32 - len);
      mask[ind] := Shl(LowMask(len), 32 - len);
      bitlen[ind] := len;
      CodeBits(codeVal, len);
      MaskBits(len);
      hide Word, Shl, LowMask, Bits;
      assert Holds(ind, Entry(codeVal, len, symbol));
      forall k | 0 <= k < ind ensures Holds(k, es[k]) {
        assert old(Holds(k, es[k]));
      }
    }

    lemma ShowsAll(es: Entries)
      requires HoldsAll(es) && size == |es|
      ensures Represents(es)
    {}

    /** The inner loop: the n codes of one length, after the rows `es`. */
    method DefineRow(ghost es: Entries, ghost next: Entries, buffer: seq<Byte>, from: nat, ind: nat, codeVal: nat,
                     len: nat, n: nat)
      requires HoldsAll(es) && ind == |es| && ind + n <= MAX_CODES && 1 <= len <= 16
      requires Extends(next, es, buffer, from, n, len, codeVal)
      modifies code, bits, mask, bitlen
      ensures HoldsAll(next)
    {
      hide HoldsAll;
      assert es + Row(codeVal, len, buffer[from..from]) == es;
      for k := 0 to n
        invariant HoldsAll(es + Row(codeVal, len, buffer[from..from + k]))
      {
        ghost var done := Row(codeVal, len, buffer[from..from + k]);
        Store(es + done, ind + k, codeVal + k, len, buffer[from + k]);
        assert es + done + [Entry(codeVal + k, len, buffer[from + k])]
            == es + Row(codeVal, len, buffer[from..from + k + 1]);
      }
    }

    /** One turn of the outer loop: the rows of one length. */
    method DefineLength(ghost es: Entries, buffer: seq<Byte>, pos: nat, ind: nat, codeVal: nat, len: nat)
      returns (n: nat, ghost next: Entries)
      requires HoldsAll(es) && ind == |es| && len <= 16 && BuiltSoFar(buffer, pos, es, len, codeVal)
      modifies code, bits, mask, bitlen
      ensures HoldsAll(next) && |next| == ind + n && BuiltSoFar(buffer, pos, next, len + 1, 2 * (codeVal + n))
    {
      hide *;
      BuiltParts(buffer, pos, es, len, codeVal);
      n := buffer[pos + len - 1];
      next := NextLength(buffer, pos, es, len, codeVal, n);
      DefineRow(es, next, buffer, pos + 16 + ind, ind, codeVal, len, n);
    }

    /** Fills the table from the 16 counts at `pos` and the symbols after them; answers where they end. */
    method Define(buffer: seq<Byte>, pos: nat) returns (pos2: nat)
      requires Valid()
      requires DefinitionFits(buffer, pos)
      modifies this, code, bits, mask, bitlen
      ensures Represents(Definition(buffer, pos))
      ensures pos2 == DefinitionEnd(buffer, pos)
    {
      hide *;
      ghost var es: Entries := [];
      HoldsNone();
      FirstLength(buffer, pos);
      pos2 := pos + 16;
      var tableInd: nat, codeVal: nat := 0, 0;
      for len := 1 to 17
        invariant pos2 == pos + 16 + tableInd && tableInd == |es|
        invariant HoldsAll(es) && BuiltSoFar(buffer, pos, es, len, codeVal)
      {
        var n;
        n, es := DefineLength(es, buffer, pos, tableInd, codeVal, len);
        pos2, tableInd, codeVal := pos2 + n, tableInd + n, 2 * (codeVal + n);
      }
      size := tableInd;
      LastLength(buffer, pos, es, codeVal);
      ShowsAll(es);
    }

    lemma HoldsNone()
      requires Valid()
      ensures HoldsAll([])
    {}
  }

  /** `next` has rows for the n symbols at buffer[from..] after the rows `es`. */
  ghost predicate Extends(next: Entries, es: Entries, buffer: seq<Byte>, from: nat, n: nat, len: CodeLength, code: nat)
  {
    from + n <= |buffer| && next == es + Row(code, len, buffer[from..from + n])
  }

  /** The rows `es` are the part of the table for the lengths below len, and `code` is the next code. */
  ghost predicate BuiltSoFar(buffer: seq<Byte>, pos: nat, es: Entries, len: nat, code: nat) {
    && DefinitionFits(buffer, pos) && 1 <= len <= 17
    && var counts, symbols := Counts(buffer, pos), Symbols(buffer, pos);
    && |es| + Total(counts, len) == Total(counts, 1)
    && es + CanonicalFrom(counts, symbols[|es|..], len, code) == Canonical(counts, symbols)
  }

  lemma FirstLength(buffer: seq<Byte>, pos: nat)
    requires DefinitionFits(buffer, pos)
    ensures pos + 16 <= |buffer| && BuiltSoFar(buffer, pos, [], 1, 0)
  {
    hide Total, CanonicalFrom;
    assert Symbols(buffer, pos)[0..] == Symbols(buffer, pos);
  }

  lemma NextLength(buffer: seq<Byte>, pos: nat, es: Entries, len: nat, code: nat, n: nat) returns (next: Entries)
    requires BuiltSoFar(buffer, pos, es, len, code) && len <= 16
    requires pos + len <= |buffer| && n == buffer[pos + len - 1]
    ensures |next| == |es| + n <= MAX_CODES
    ensures Extends(next, es, buffer, pos + 16 + |es|, n, len, code)
    ensures BuiltSoFar(buffer, pos, next, len + 1, 2 * (code + n))
  {
    hide *;
    BuiltParts(buffer, pos, es, len, code);
    var counts, symbols := Counts(buffer, pos), Symbols(buffer, pos);
    var from, to := |es|, |es| + n;
    TotalStep(counts, len);
    NextRow(counts, symbols, from, to, len, code, es);
    next := es + Row(code, len, symbols[from..to]);
    NextParts(buffer, pos, es, next, from, to, len, code, n);
  }

  lemma BuiltParts(buffer: seq<Byte>, pos: nat, es: Entries, len: nat, code: nat)
    requires BuiltSoFar(buffer, pos, es, len, code) && len <= 16
    ensures 1 <= len && pos + 16 <= |buffer| && Counts(buffer, pos)[len - 1] == buffer[pos + len - 1]
    ensures |es| + Total(Counts(buffer, pos), len) == Total(Counts(buffer, pos), 1) <= MAX_CODES
    ensures Total(Counts(buffer, pos), 1) <= |Symbols(buffer, pos)|
  {
    hide Total, Canonical, CanonicalFrom;
  }

  lemma NextParts(buffer: seq<Byte>, pos: nat, es: Entries, next: Entries, from: nat, to: nat, len: nat, code: nat,
                  n: nat)
    requires pos + 16 <= |buffer| && 1 <= len <= 16 && from == |es| && to == from + n
    requires BuiltSoFar(buffer, pos, es, len, code) && n == Counts(buffer, pos)[len - 1]
    requires Total(Counts(buffer, pos), len) == n + Total(Counts(buffer, pos), len + 1)
    requires to <= |Symbols(buffer, pos)| && next == es + Row(code, len, Symbols(buffer, pos)[from..to])
    requires Total(Counts(buffer, pos), len + 1) <= |Symbols(buffer, pos)[to..]|
    requires es + CanonicalFrom(Counts(buffer, pos), Symbols(buffer, pos)[from..], len, code) ==
             next + CanonicalFrom(Counts(buffer, pos), Symbols(buffer, pos)[to..], len + 1, 2 * (code + n))
    ensures Extends(next, es, buffer, pos + 16 + |es|, n, len, code)
    ensures BuiltSoFar(buffer, pos, next, len + 1, 2 * (code + n))
  {
    hide Total, Canonical, CanonicalFrom, Row;
    assert buffer[pos + 16 + from..pos + 16 + from + n] == Symbols(buffer, pos)[from..to];
    assert |next| == to;
  }

  lemma LastLength(buffer: seq<Byte>, pos: nat, es: Entries, code: nat)
    requires BuiltSoFar(buffer, pos, es, 17, code)
    ensures DefinitionFits(buffer, pos)
    ensures es == Definition(buffer, pos) && pos + 16 + |es| == DefinitionEnd(buffer, pos)
  {
    hide Canonical;
  }

  lemma NextRow(counts: seq<nat>, symbols: seq<nat>, from: nat, to: nat, len: nat, code: nat, es: Entries)
    requires |counts| == 16 && 1 <= len <= 16 && to == from + counts[len - 1]
    requires from + Total(counts, len) <= |symbols|
    ensures es + CanonicalFrom(counts, symbols[from..], len, code) ==
            es + Row(code, len, symbols[from..to])
            + CanonicalFrom(counts, symbols[to..], len + 1, 2 * (code + counts[len - 1]))
  {
    var n := counts[len - 1];
    CanonicalSplit(counts, symbols[from..], len, code);
    assert symbols[from..][..n] == symbols[from..to];
    assert symbols[from..][n..] == symbols[to..];
  }

  lemma CodeBits(codeVal: nat, len: nat)
    requires len <= 32
    ensures Bits(Shl(Word(codeVal), 32 - len)) == NatBits(codeVal, len) + Zeros(32 - len)
  {
    BitsWord(codeVal);
    BitsShl(Word(codeVal), 32 - len);
    NatBitsLow(codeVal, 32 - len, len);
  }

  lemma {:induction false} NatBitsLow(n: nat, k: nat, len: nat)
    ensures NatBits(n, k + len)[k..] == NatBits(n, len)
  {
    if k > 0 {
      NatBitsSuffix(n, k + len - 1);
      NatBitsLow(n, k - 1, len);
      assert NatBits(n, k + len)[k..] == NatBits(n, k + len)[1..][k - 1..];
    }
  }

  lemma MaskBits(len: nat)
    requires len <= 32
    ensures Bits(Shl(LowMask(len), 32 - len)) == Ones(len) + Zeros(32 - len)
  {
    BitsLowMask(len);
    BitsShl(LowMask(len), 32 - len);
  }

  // ----- what a DHT segment says -----

  /** The counts and the symbols of a table definition. */
  function Counts(buffer: seq<Byte>, pos: nat): (c: seq<nat>)
    requires pos + 16 <= |buffer|
    ensures |c| == 16 && forall i :: 0 <= i < 16 ==> c[i] == buffer[pos + i]
  {
    buffer[pos..pos + 16]
  }

  function Symbols(buffer: seq<Byte>, pos: nat): (s: seq<nat>)
    requires pos + 16 <= |buffer|
    ensures |s| == |buffer| - pos - 16 && forall i :: 0 <= i < |s| ==> s[i] == buffer[pos + 16 + i]
  {
    buffer[pos + 16..]
  }

  predicate DefinitionFits(buffer: seq<Byte>, pos: nat) {
    && pos + 16 <= |buffer|
    && Total(Counts(buffer, pos), 1) <= MAX_CODES
    && Total(Counts(buffer, pos), 1) <= |Symbols(buffer, pos)|
  }

  function Definition(buffer: seq<Byte>, pos: nat): Entries
    requires DefinitionFits(buffer, pos)
  {
    Canonical(Counts(buffer, pos), Symbols(buffer, pos))
  }

  function DefinitionEnd(buffer: seq<Byte>, pos: nat): nat
    requires DefinitionFits(buffer, pos)
  {
    pos + 16 + Total(Counts(buffer, pos), 1)
  }
}
