/** Bit strings, most significant bit first, and the numbers they write. */
module BitStrings {

  type Byte = b: int | 0 <= b < 256

  /** c * 2^n */
  function Scale(c: nat, n: nat): (r: nat) {
    if n == 0 then c else 2 * Scale(c, n - 1)
  }

  function Pow2(n: nat): nat {
    Scale(1, n)
  }

  function BitsValue(bits: seq<bool>): nat {
    if bits == [] then 0
    else 2 * BitsValue(bits[..|bits| - 1]) + (if bits[|bits| - 1] then 1 else 0)
  }

  /** The low `len` bits of n. */
  function NatBits(n: nat, len: nat): (bits: seq<bool>)
    ensures |bits| == len
  {
    if len == 0 then [] else NatBits(n / 2, len - 1) + [n % 2 == 1]
  }

  function Zeros(n: nat): (z: seq<bool>)
    ensures |z| == n && forall i :: 0 <= i < n ==> !z[i]
  {
    seq(n, i => false)
  }

  function Ones(n: nat): (z: seq<bool>)
    ensures |z| == n && forall i :: 0 <= i < n ==> z[i]
  {
    seq(n, i => true)
  }

  function BytesBits(bytes: seq<Byte>): (bits: seq<bool>)
    ensures |bits| == 8 * |bytes|
  {
    if bytes == [] then [] else NatBits(bytes[0], 8) + BytesBits(bytes[1..])
  }

  lemma Pow2Values()
    ensures Pow2(8) == 256 && Pow2(16) == 65536
  {
    assert Scale(1, 4) == 16;
    ScaleScale(1, 4, 4);
    assert Scale(16, 4) == 256;
    ScaleScale(1, 8, 8);
    assert Scale(256, 8) == 65536 by {
      ScaleScale(256, 4, 4);
      assert Scale(256, 4) == 4096;
      assert Scale(4096, 4) == 65536;
    }
  }

  lemma {:induction false} ScaleAdd(a: nat, b: nat, n: nat)
    ensures Scale(a + b, n) == Scale(a, n) + Scale(b, n)
  {
    if n > 0 { ScaleAdd(a, b, n - 1); }
  }

  lemma {:induction false} ScaleOrder(a: nat, b: nat, n: nat)
    ensures Scale(a, n) <= Scale(b, n) <==> a <= b
  {
    if n > 0 { ScaleOrder(a, b, n - 1); }
  }

  lemma {:induction false} ScaleDouble(a: nat, n: nat)
    ensures Scale(2 * a, n) == Scale(a, n + 1)
  {
    if n > 0 { ScaleDouble(a, n - 1); }
  }

  lemma {:induction false} ScaleScale(a: nat, m: nat, n: nat)
    ensures Scale(Scale(a, m), n) == Scale(a, m + n)
  {
    if n > 0 { ScaleScale(a, m, n - 1); }
  }

  lemma {:induction false} BitsValueBound(bits: seq<bool>)
    ensures BitsValue(bits) < Pow2(|bits|)
  {
    if bits != [] { BitsValueBound(bits[..|bits| - 1]); }
  }

  lemma {:induction false} BitsValueNatBits(n: nat, len: nat)
    requires n < Pow2(len)
    ensures BitsValue(NatBits(n, len)) == n
  {
    if len > 0 {
      BitsValueNatBits(n / 2, len - 1);
      var bits := NatBits(n, len);
      assert bits[..len - 1] == NatBits(n / 2, len - 1);
    }
  }

  lemma {:induction false} NatBitsBitsValue(bits: seq<bool>)
    ensures NatBits(BitsValue(bits), |bits|) == bits
  {
    if bits != [] { NatBitsBitsValue(bits[..|bits| - 1]); }
  }

  lemma {:induction false} LeadingZeros(n: nat, bits: seq<bool>)
    ensures BitsValue(Zeros(n) + bits) == BitsValue(bits)
  {
    var b := Zeros(n) + bits;
    if bits != [] {
      assert b[..|b| - 1] == Zeros(n) + bits[..|bits| - 1];
      LeadingZeros(n, bits[..|bits| - 1]);
    } else if n > 0 {
      assert b[..|b| - 1] == Zeros(n - 1) + [];
      LeadingZeros(n - 1, []);
    }
  }

  lemma {:induction false} NatBitsHigh(n: nat, k: nat, len: nat)
    requires n < Pow2(len)
    ensures NatBits(n, k + len) == Zeros(k) + NatBits(n, len)
  {
    if len > 0 {
      NatBitsHigh(n / 2, k, len - 1);
    } else if k > 0 {
      NatBitsHigh(0, k - 1, 0);
      assert Zeros(k) == Zeros(k - 1) + [false];
    }
  }

  /** The value of a bit string, cut in two. */
  lemma {:induction false} BitsValueConcat(a: seq<bool>, b: seq<bool>)
    ensures BitsValue(a + b) == Scale(BitsValue(a), |b|) + BitsValue(b)
  {
    if b == [] {
      assert a + b == a;
    } else {
      var b' := b[..|b| - 1];
      BitsValueConcat(a, b');
      assert (a + b)[..|a + b| - 1] == a + b';
    }
  }

  lemma {:induction false} BytesBitsConcat(a: seq<Byte>, b: seq<Byte>)
    ensures BytesBits(a + b) == BytesBits(a) + BytesBits(b)
  {
    if a == [] {
      assert a + b == b;
    } else {
      BytesBitsConcat(a[1..], b);
      assert (a + b)[1..] == a[1..] + b;
    }
  }

  lemma {:induction false} NatBitsSuffix(n: nat, len: nat)
    ensures NatBits(n, len + 1)[1..] == NatBits(n, len)
  {
    if len > 0 { NatBitsSuffix(n / 2, len - 1); }
  }

  /** Different byte strings have different bits. */
  lemma {:induction false} BytesBitsInjective(a: seq<Byte>, b: seq<Byte>)
    requires BytesBits(a) == BytesBits(b)
    ensures a == b
  {
    if a != [] {
      assert |a| == |b|;
      assert NatBits(a[0], 8) == BytesBits(a)[..8] == BytesBits(b)[..8] == NatBits(b[0], 8);
      Pow2Values();
      BitsValueNatBits(a[0], 8);
      BitsValueNatBits(b[0], 8);
      assert BytesBits(a[1..]) == BytesBits(a)[8..] == BytesBits(b)[8..] == BytesBits(b[1..]);
      BytesBitsInjective(a[1..], b[1..]);
    }
  }
}
