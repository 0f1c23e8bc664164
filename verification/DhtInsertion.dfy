/** Giving a Motion-JPEG frame the Huffman tables it leaves out. Markers are those of Table B.1 of ITU-T T.81. */
module DhtInsertion {
  import opened Collections

  type Octet = bv8

  const DHT_SIZE := 420
  /** The last position at which the test for an existing table finds one. */
  const LOOK_AHEAD := 2048

  const SOF0: Octet := 0xc0
  const DHT: Octet := 0xc4
  const SOS: Octet := 0xda

  /** The marker FF m is at position p. */
  predicate MarkerAt(buf: seq<Octet>, p: int, m: Octet) {
    0 <= p && p + 1 < |buf| && buf[p] == 0xff && buf[p + 1] == m
  }

  /** The data that is inserted: all that matters of it. */
  ghost predicate IsTable(table: seq<Octet>) {
    |table| == DHT_SIZE && MarkerAt(table, 0, DHT)
  }

  /** `buf` is the readable memory; the frame is its first `size` bytes. */
  predicate Readable(buf: seq<Octet>, size: nat) {
    |buf| > LOOK_AHEAD + 2 && size + 2 <= |buf|
  }

  // ----- is there a table already -----

  /** No scan starts before p. */
  ghost predicate NoSosBefore(buf: seq<Octet>, p: int) {
    forall q {:trigger MarkerAt(buf, q, SOS)} :: 0 <= q < p ==> !MarkerAt(buf, q, SOS)
  }

  ghost predicate TableAt(buf: seq<Octet>, p: int) {
    p <= LOOK_AHEAD && MarkerAt(buf, p, DHT) && NoSosBefore(buf, p)
  }

  /** What is_huffman looks for. */
  ghost predicate HasTable(buf: seq<Octet>) {
    exists p :: TableAt(buf, p)
  }

  method IsHuffman(buf: seq<Octet>) returns (found: bool)
    requires |buf| > LOOK_AHEAD + 2
    ensures found <==> HasTable(buf)
    ensures found <==> ShowsTable(buf)
  {
    ShowsIffHas(buf);
    hide ShowsTable;
    var i, p := 0, 0;
    while !(buf[p] == 0xff && buf[p + 1] == SOS)
      invariant p == i <= LOOK_AHEAD + 1 && NoSosBefore(buf, p)
      invariant forall q :: 0 <= q < p ==> !MarkerAt(buf, q, DHT)
      decreases LOOK_AHEAD + 2 - p
    {
      i := i + 1;
      if i - 1 > LOOK_AHEAD {
        return false;
      }
      if buf[p] == 0xff && buf[p + 1] == DHT {
        assert TableAt(buf, p);
        return true;
      }
      p := p + 1;
    }
    assert MarkerAt(buf, p, SOS);
    return false;
  }

  /** The same, byte by byte: FF C4 at one of the first 2049 positions, and no FF DA before it. */
  ghost predicate ShowsTable(buf: seq<Octet>) {
    exists p :: ShowsAt(buf, p)
  }

  ghost predicate ShowsAt(buf: seq<Octet>, p: int) {
    && 0 <= p <= 2048 && p + 1 < |buf| && buf[p] == 0xff && buf[p + 1] == 0xc4
    && forall q :: 0 <= q < p ==> !(buf[q] == 0xff && buf[q + 1] == 0xda)
  }

  lemma ShowsIffHas(buf: seq<Octet>)
    ensures HasTable(buf) <==> ShowsTable(buf)
  {
    if p :| TableAt(buf, p) {
      forall q | 0 <= q < p ensures !(buf[q] == 0xff && buf[q + 1] == 0xda) { assert !MarkerAt(buf, q, SOS); }
      assert ShowsAt(buf, p);
    }
    if p :| ShowsAt(buf, p) {
      assert TableAt(buf, p);
    }
  }

  // ----- the copy -----

  /** The first SOF0 at or behind p, or `size`. */
  function FirstSof(buf: seq<Octet>, size: nat, p: nat): (c: nat)
    requires p <= size && size + 2 <= |buf|
    ensures p <= c <= size && (c < size ==> MarkerAt(buf, c, SOF0))
    ensures forall q :: p <= q < c ==> !MarkerAt(buf, q, SOF0)
    decreases size - p
  {
    if p == size || MarkerAt(buf, p, SOF0) then p else FirstSof(buf, size, p + 1)
  }

  /** What ends up in the output. */
  ghost function Picture(buf: seq<Octet>, size: nat, table: seq<Octet>): seq<Octet>
    requires Readable(buf, size)
  {
    if HasTable(buf) then buf[..size]
    else
      var c := FirstSof(buf, size, 0);
      if c == size then [] else buf[..c] + table + buf[c..size]
  }

  /** FF C0 for the first time at c. */
  ghost predicate HeaderAt(buf: seq<Octet>, size: nat, c: nat) {
    && c < size && size + 2 <= |buf| && buf[c] == 0xff && buf[c + 1] == 0xc0
    && forall q :: 0 <= q < c ==> !(buf[q] == 0xff && buf[q + 1] == 0xc0)
  }

  /**
    The output in all three cases: the frame as it is; or cut in two at its first FF C0, with the table in between; or,
    without one, nothing.
   */
  lemma PictureIs(buf: seq<Octet>, size: nat, table: seq<Octet>)
    requires Readable(buf, size)
    ensures ShowsTable(buf) ==> Picture(buf, size, table) == buf[..size]
    ensures !ShowsTable(buf) ==> forall c: nat :: HeaderAt(buf, size, c) ==>
              Picture(buf, size, table) == buf[..c] + table + buf[c..size]
    ensures !ShowsTable(buf) && (forall c: nat :: !HeaderAt(buf, size, c)) ==> Picture(buf, size, table) == []
  {
    ShowsIffHas(buf);
    hide HasTable, ShowsTable;
    var c := FirstSof(buf, size, 0);
    forall q | 0 <= q < c ensures !(buf[q] == 0xff && buf[q + 1] == 0xc0) { assert !MarkerAt(buf, q, SOF0); }
    if c < size { assert HeaderAt(buf, size, c); }
    forall d: nat | HeaderAt(buf, size, d) ensures d == c {
      assert MarkerAt(buf, d, SOF0);
    }
  }

  /** The search for the frame header. */
  method FindSof(buf: seq<Octet>, size: nat) returns (cur: nat)
    requires size + 2 <= |buf|
    ensures cur == FirstSof(buf, size, 0)
  {
    cur := 0;
    while !(buf[cur] == 0xff && buf[cur + 1] == SOF0) && cur < size
      invariant cur <= size && FirstSof(buf, size, 0) == FirstSof(buf, size, cur)
    {
      cur := cur + 1;
    }
  }

  /** The three copies, one behind the other. */
  method CopyThree(out: array<Octet>, a: seq<Octet>, b: seq<Octet>, c: seq<Octet>)
    requires |a| + |b| + |c| <= out.Length
    modifies out
    ensures out[..|a| + |b| + |c|] == a + b + c
    ensures out[|a| + |b| + |c|..] == old(out[|a| + |b| + |c|..])
  {
    ghost var w0 := out[..];
    Copy(out, 0, a);
    ghost var w1 := out[..];
    Copy(out, |a|, b);
    ghost var w2 := out[..];
    Copy(out, |a| + |b|, c);
    ThreeCopies(w0, w1, w2, out[..], a, b, c, |a| + |b|, |a| + |b| + |c|);
  }

  lemma ThreeCopies(w0: seq<Octet>, w1: seq<Octet>, w2: seq<Octet>, w3: seq<Octet>,
                    a: seq<Octet>, b: seq<Octet>, c: seq<Octet>, m: nat, k: nat)
    requires m == |a| + |b| && k == m + |c| <= |w0| == |w1| == |w2| == |w3|
    requires w1[..|a|] == a && w1[|a|..] == w0[|a|..]
    requires w2[..m] == w1[..|a|] + b && w2[m..] == w1[m..]
    requires w3[..k] == w2[..m] + c && w3[k..] == w2[k..]
    ensures w3[..k] == a + b + c && w3[k..] == w0[k..]
  {
    forall i | k <= i < |w0| ensures w3[i] == w0[i] {
      assert w3[i] == w3[k..][i - k] && w2[i] == w2[k..][i - k];
      assert w2[i] == w2[m..][i - m] && w1[i] == w1[m..][i - m];
      assert w1[i] == w1[|a|..][i - |a|] && w0[i] == w0[|a|..][i - |a|];
    }
  }

  method MemcpyPicture(out: array<Octet>, buf: seq<Octet>, size: nat, table: seq<Octet>) returns (pos: nat)
    requires Readable(buf, size) && out.Length >= size + |table|
    modifies out
    ensures pos == |Picture(buf, size, table)| <= out.Length && out[..pos] == Picture(buf, size, table)
    ensures out[pos..] == old(out[pos..])
    ensures ShowsTable(buf) ==> out[..pos] == buf[..size]
    ensures !ShowsTable(buf) ==>
              forall c: nat :: HeaderAt(buf, size, c) ==> out[..pos] == buf[..c] + table + buf[c..size]
    ensures !ShowsTable(buf) && (forall c: nat :: !HeaderAt(buf, size, c)) ==> pos == 0
  {
    PictureIs(buf, size, table);
    hide HasTable, ShowsTable, HeaderAt, FirstSof;
    pos := 0;
    var found := IsHuffman(buf);
    if !found {
      var cur := FindSof(buf, size);
      if cur >= size {
        return;
      }
      CopyThree(out, buf[..cur], table, buf[cur..size]);
      pos := cur + |table| + (size - cur);
    } else {
      Copy(out, 0, buf[..size]);
      pos := size;
    }
  }

  // ----- doing it twice -----

  /** `again` is memory that begins with the frame in which the table was inserted at c. */
  ghost predicate Inserted(again: seq<Octet>, buf: seq<Octet>, size: nat, c: nat, table: seq<Octet>) {
    && c < size <= |buf| && IsTable(table)
    && Readable(again, size + DHT_SIZE)
    && again[..size + DHT_SIZE] == buf[..c] + table + buf[c..size]
  }

  lemma InsertedBytes(again: seq<Octet>, buf: seq<Octet>, size: nat, c: nat, table: seq<Octet>)
    requires Inserted(again, buf, size, c, table)
    ensures forall q :: 0 <= q < c ==> again[q] == buf[q]
    ensures again[c] == 0xff && again[c + 1] == DHT && buf[c] == again[c + DHT_SIZE]
    ensures c + 1 < size ==> again[c + 1 + DHT_SIZE] == buf[c + 1]
  {
    var whole := again[..size + DHT_SIZE];
    forall q | 0 <= q < c ensures again[q] == buf[q] { assert whole[q] == again[q]; }
    assert whole[c] == again[c] && whole[c] == table[0];
    assert whole[c + 1] == again[c + 1] && whole[c + 1] == table[1];
    assert whole[c + DHT_SIZE] == again[c + DHT_SIZE] && whole[c + DHT_SIZE] == buf[c..size][0];
    if c + 1 < size {
      assert whole[c + 1 + DHT_SIZE] == again[c + 1 + DHT_SIZE] && whole[c + 1 + DHT_SIZE] == buf[c..size][1];
    }
  }

  /** Before the seam there are the markers of the frame, and across it there is none. */
  lemma BeforeSeam(again: seq<Octet>, buf: seq<Octet>, size: nat, c: nat, table: seq<Octet>, q: int, m: Octet)
    requires Inserted(again, buf, size, c, table) && MarkerAt(buf, c, SOF0) && 0 <= q < c && m != 0xff
    ensures MarkerAt(again, q, m) <==> MarkerAt(buf, q, m)
  {
    InsertedBytes(again, buf, size, c, table);
  }

  /** After an insertion the table is found exactly when the test reaches it. */
  lemma InsertedIsFoundIff(again: seq<Octet>, buf: seq<Octet>, size: nat, c: nat, table: seq<Octet>)
    requires Inserted(again, buf, size, c, table) && MarkerAt(buf, c, SOF0) && !HasTable(buf)
    ensures HasTable(again) <==> c <= LOOK_AHEAD && NoSosBefore(buf, c)
  {
    InsertedBytes(again, buf, size, c, table);
    if c <= LOOK_AHEAD && NoSosBefore(buf, c) {
      forall q {:trigger MarkerAt(again, q, SOS)} | 0 <= q < c ensures !MarkerAt(again, q, SOS) {
        BeforeSeam(again, buf, size, c, table, q, SOS);
      }
      assert TableAt(again, c);
    }
    if HasTable(again) {
      var p :| TableAt(again, p);
      TableBeforeSeam(again, buf, size, c, table, p);
    }
  }

  lemma TableBeforeSeam(again: seq<Octet>, buf: seq<Octet>, size: nat, c: nat, table: seq<Octet>, p: int)
    requires Inserted(again, buf, size, c, table) && MarkerAt(buf, c, SOF0)
    requires TableAt(again, p)
    ensures HasTable(buf) || (c <= LOOK_AHEAD && NoSosBefore(buf, c))
  {
    forall q {:trigger MarkerAt(buf, q, SOS)} | 0 <= q < c && q < p ensures !MarkerAt(buf, q, SOS) {
      BeforeSeam(again, buf, size, c, table, q, SOS);
    }
    if p < c {
      BeforeSeam(again, buf, size, c, table, p, DHT);
      assert TableAt(buf, p);
    }
  }

  /** A frame with a header in it that is not recognised as having a table gets longer. */
  lemma UnfoundGrows(again: seq<Octet>, size: nat, c: nat, table: seq<Octet>)
    requires Readable(again, size) && !HasTable(again) && c < size && MarkerAt(again, c, SOF0) && |table| == DHT_SIZE
    ensures |Picture(again, size, table)| == size + DHT_SIZE
  {
    hide HasTable;
  }

  /**
    Inserting is idempotent exactly when the frame header lies within reach of the test and no scan begins before it;
    what lies in memory behind the frame does not matter.
   */
  lemma InsertionIdempotentIff(buf: seq<Octet>, size: nat, table: seq<Octet>, again: seq<Octet>)
    requires Readable(buf, size) && IsTable(table) && !HasTable(buf) && FirstSof(buf, size, 0) + 1 < size
    requires var once := Picture(buf, size, table);
             Readable(again, |once|) && again[..|once|] == once
    ensures var once, c := Picture(buf, size, table), FirstSof(buf, size, 0);
            |once| == size + 420
            && (Picture(again, |once|, table) == once <==> c <= LOOK_AHEAD && NoSosBefore(buf, c))
  {
    var once, c := Picture(buf, size, table), FirstSof(buf, size, 0);
    hide HasTable, FirstSof, NoSosBefore;
    assert Inserted(again, buf, size, c, table);
    InsertedIsFoundIff(again, buf, size, c, table);
    if !HasTable(again) {
      InsertedBytes(again, buf, size, c, table);
      assert MarkerAt(again, c + DHT_SIZE, SOF0);
      UnfoundGrows(again, |once|, c + DHT_SIZE, table);
    }
  }

  /** A frame whose own bytes show its table is left alone, and so is what comes out. */
  lemma FrameWithTableUnchanged(buf: seq<Octet>, size: nat, table: seq<Octet>, again: seq<Octet>, p: int)
    requires Readable(buf, size) && TableAt(buf, p) && p + 1 < size
    requires Readable(again, size) && again[..size] == buf[..size]
    ensures Picture(buf, size, table) == buf[..size] && Picture(again, size, table) == buf[..size]
  {
    forall q | 0 <= q < size ensures again[q] == buf[q] {
      assert again[..size][q] == again[q] && buf[..size][q] == buf[q];
    }
    forall q {:trigger MarkerAt(again, q, SOS)} | 0 <= q < p ensures !MarkerAt(again, q, SOS) {
      assert MarkerAt(again, q, SOS) == MarkerAt(buf, q, SOS);
    }
    assert TableAt(again, p);
  }
}
