/**
  A whole scan: its blocks as bits, its bits as stuffed bytes (section F.1.2.3 of ITU-T T.81),
  and what the decoder reads back.
 */
module ScanCoding {
  import opened BitStrings
  import opened HuffmanTables
  import opened BlockCoding

  // ----- bytes -----

  /** A zero byte follows every FF of the coded data. */
  function Stuff(data: seq<Byte>): seq<Byte> {
    if data == [] then []
    else StuffByte(data[0]) + Stuff(data[1..])
  }

  function StuffByte(b: Byte): seq<Byte> {
    if b == 0xff then [0xff, 0] else [b]
  }

  /**
    The data bytes that the refill loop takes from raw scan bytes. After an FF it takes one more byte,
    skipping a stuffed zero, and does not look at whether that byte is itself an FF. An FF with nothing
    to take after it is never taken whole.
   */
  function Delivered(raw: seq<Byte>): (d: seq<Byte>)
    ensures |d| <= |raw|
  {
    if raw == [] then []
    else if raw[0] != 0xff then [raw[0]] + Delivered(raw[1..])
    else if |raw| == 1 then []
    else if raw[1] != 0 then [0xff, raw[1]] + Delivered(raw[2..])
    else if |raw| == 2 then []
    else [0xff, raw[2]] + Delivered(raw[3..])
  }

  /** All the data bytes of a scan: the first two are loaded as they are. */
  function Loaded(raw: seq<Byte>): seq<Byte>
    requires |raw| >= 2
  {
    raw[..2] + Delivered(raw[2..])
  }

  predicate NoAdjacentFF(data: seq<Byte>) {
    forall i :: 0 <= i && i + 1 < |data| ==> !(data[i] == 0xff && data[i + 1] == 0xff)
  }

  /** Data that survives stuffing and this decoder's un-stuffing. */
  predicate ScanSafe(data: seq<Byte>) {
    |data| >= 2 && data[0] != 0xff && data[1] != 0xff && NoAdjacentFF(data)
  }

  /** The EOI marker, which ends every frame. */
  const EOI: seq<Byte> := [0xff, 0xd9]

  /** The raw bytes of a frame from its scan data on. */
  function Framed(data: seq<Byte>, more: seq<Byte>): seq<Byte> {
    Stuff(data) + (EOI + more)
  }

  /** What the marker and the bytes after it add to the delivered data. */
  function Trailer(more: seq<Byte>): seq<Byte> {
    EOI + Delivered(more)
  }

  lemma FramedEmpty(more: seq<Byte>)
    ensures Delivered(Framed([], more)) == Trailer(more)
  {
    assert Framed([], more) == EOI + more && (EOI + more)[2..] == more;
  }

  lemma FramedLast(more: seq<Byte>)
    ensures Delivered(Framed([0xff], more)) == [0xff] + Trailer(more)
  {
    assert Framed([0xff], more) == [0xff, 0, 0xff] + ([0xd9] + more);
    DeliveredPair(0xff, [0xd9] + more);
    assert ([0xd9] + more)[1..] == more;
  }

  lemma FramedPlain(data: seq<Byte>, more: seq<Byte>)
    requires data != [] && data[0] != 0xff
    ensures Delivered(Framed(data, more)) == [data[0]] + Delivered(Framed(data[1..], more))
  {
    FramedFirst(data, more);
    hide Stuff, Framed;
    assert ([data[0]] + Framed(data[1..], more))[1..] == Framed(data[1..], more);
  }

  lemma {:induction false} DeliveredNotShorter(data: seq<Byte>, more: seq<Byte>)
    ensures |Delivered(Framed(data, more))| >= |data| + |Trailer(more)|
  {
    hide Delivered, Trailer, Framed;
    if data == [] {
      FramedEmpty(more);
    } else if data[0] != 0xff {
      FramedPlain(data, more);
      DeliveredNotShorter(data[1..], more);
    } else if |data| == 1 {
      assert data == [0xff];
      FramedLast(more);
    } else {
      FramedPair(data, more);
      DeliveredNotShorter(data[2..], more);
    }
  }

  lemma StuffTwo(data: seq<Byte>)
    requires |data| >= 2
    ensures Stuff(data) == StuffByte(data[0]) + StuffByte(data[1]) + Stuff(data[2..])
  {
    assert data[1..][1..] == data[2..];
  }

  lemma DeliveredZero(rest: seq<Byte>)
    ensures Delivered([0] + rest) == [0] + Delivered(rest)
  {
    assert ([0] + rest)[1..] == rest;
  }

  lemma DeliveredPair(x: Byte, rest: seq<Byte>)
    ensures Delivered([0xff, 0, x] + rest) == [0xff, x] + Delivered(rest)
  {
    assert ([0xff, 0, x] + rest)[3..] == rest;
  }

  lemma PairDelivered(raw: seq<Byte>, x: Byte, rest: seq<Byte>)
    requires raw == [0xff, 0] + StuffByte(x) + rest
    ensures Delivered(raw) == [0xff, x] + (if x == 0xff then [0] else []) + Delivered(rest)
  {
    hide Delivered;
    if x == 0xff {
      assert raw == [0xff, 0, 0xff] + ([0] + rest);
      DeliveredPair(0xff, [0] + rest);
      DeliveredZero(rest);
    } else {
      assert raw == [0xff, 0, x] + rest;
      DeliveredPair(x, rest);
    }
  }

  /** An FF and the byte after it are taken together; a second FF leaves its stuffed zero behind. */
  lemma StuffPair(data: seq<Byte>, more: seq<Byte>)
    requires |data| >= 2 && data[0] == 0xff
    ensures Delivered(Stuff(data) + more) ==
            [0xff, data[1]] + (if data[1] == 0xff then [0] else []) + Delivered(Stuff(data[2..]) + more)
  {
    StuffTwo(data);
    PairDelivered(Stuff(data) + more, data[1], Stuff(data[2..]) + more);
  }

  lemma FramedPair(data: seq<Byte>, more: seq<Byte>)
    requires |data| >= 2 && data[0] == 0xff
    ensures Delivered(Framed(data, more)) ==
            [0xff, data[1]] + (if data[1] == 0xff then [0] else []) + Delivered(Framed(data[2..], more))
  {
    StuffPair(data, EOI + more);
  }

  /** Between the scan header and the end of the frame the data comes back exactly when no two FF bytes meet. */
  lemma {:induction false} DeliveredIffNoAdjacent(data: seq<Byte>, more: seq<Byte>)
    ensures Delivered(Framed(data, more)) == data + Trailer(more) <==> NoAdjacentFF(data)
  {
    hide Delivered, Trailer, Framed;
    var all := data + Trailer(more);
    if data == [] {
      FramedEmpty(more);
      assert all == Trailer(more);
    } else if data[0] != 0xff {
      FramedPlain(data, more);
      DeliveredIffNoAdjacent(data[1..], more);
      TailAdjacent(data);
      assert all[1..] == data[1..] + Trailer(more);
      assert Delivered(Framed(data, more))[1..] == Delivered(Framed(data[1..], more));
    } else if |data| == 1 {
      assert data == [0xff];
      FramedLast(more);
    } else {
      FramedPair(data, more);
      var tail := data[2..];
      if data[1] == 0xff {
        DeliveredNotShorter(tail, more);
        assert !NoAdjacentFF(data) by { assert data[0] == 0xff && data[0 + 1] == 0xff; }
      } else {
        DeliveredIffNoAdjacent(tail, more);
        TailAdjacent(data);
        TailAdjacent(data[1..]);
        assert data[1..][1..] == tail;
        assert all[2..] == tail + Trailer(more) && all[..2] == data[..2] == [0xff, data[1]];
        assert Delivered(Framed(data, more))[2..] == Delivered(Framed(tail, more));
      }
    }
  }

  lemma TailAdjacent(data: seq<Byte>)
    requires data != []
    ensures NoAdjacentFF(data) <==> NoAdjacentFF(data[1..]) && !(|data| > 1 && data[0] == 0xff && data[1] == 0xff)
  {
    if NoAdjacentFF(data[1..]) && !(|data| > 1 && data[0] == 0xff && data[1] == 0xff) {
      forall i | 0 <= i && i + 1 < |data| ensures !(data[i] == 0xff && data[i + 1] == 0xff) {
        if i > 0 { assert data[1..][i - 1] == data[i] && data[1..][i - 1 + 1] == data[i + 1]; }
      }
    }
    if NoAdjacentFF(data) {
      forall i | 0 <= i && i + 1 < |data[1..]| ensures !(data[1..][i] == 0xff && data[1..][i + 1] == 0xff) {
        assert data[1..][i] == data[i + 1] && data[1..][i + 1] == data[i + 1 + 1];
      }
    }
  }

  /** In a frame the decoder loads the scan data unchanged exactly when the data is scan-safe. */
  lemma LoadedIffSafe(data: seq<Byte>, more: seq<Byte>)
    requires |data| >= 2
    ensures |Framed(data, more)| >= 2
    ensures Loaded(Framed(data, more)) == data + Trailer(more) <==> ScanSafe(data)
  {
    hide *;
    FirstTwo(data, more);
    if data[0] == 0xff {
      SecondZero(data, more);
      FirstUnsafe(data);
    } else if data[1] == 0xff {
      ThirdZero(data, more);
      FirstUnsafe(data);
    } else {
      DeliveredIffNoAdjacent(data[2..], more);
      SafeTail(data);
      SameFront(data[..2], Delivered(Framed(data[2..], more)), data[2..] + Trailer(more));
      assert data + Trailer(more) == data[..2] + (data[2..] + Trailer(more));
    }
  }

  lemma FirstUnsafe(data: seq<Byte>)
    requires |data| >= 2 && (data[0] == 0xff || data[1] == 0xff)
    ensures !ScanSafe(data)
  {}

  lemma SafeTail(data: seq<Byte>)
    requires |data| >= 2 && data[0] != 0xff && data[1] != 0xff
    ensures ScanSafe(data) <==> NoAdjacentFF(data[2..])
  {
    TailAdjacent(data);
    TailAdjacent(data[1..]);
    assert data[1..][1..] == data[2..];
  }

  lemma SameFront<T>(front: seq<T>, a: seq<T>, b: seq<T>)
    ensures front + a == front + b <==> a == b
  {
    assert (front + a)[|front|..] == a && (front + b)[|front|..] == b;
  }

  /** What is loaded as it is, and what through the refill loop, when the data does not begin with an FF. */
  lemma FirstTwo(data: seq<Byte>, more: seq<Byte>)
    requires |data| >= 2
    ensures |Framed(data, more)| >= 2
    ensures data[0] != 0xff && data[1] != 0xff ==>
            Loaded(Framed(data, more)) == data[..2] + Delivered(Framed(data[2..], more))
    ensures data[0] != 0xff && data[1] == 0xff ==>
            Loaded(Framed(data, more)) == data[..2] + Delivered([0] + Framed(data[2..], more))
  {
    StuffTwo(data);
    hide Stuff, Delivered;
    var raw := Framed(data, more);
    if data[0] != 0xff {
      assert raw[..2] == data[..2];
      assert raw[2..] == (if data[1] == 0xff then [0] else []) + Framed(data[2..], more);
      assert [] + Framed(data[2..], more) == Framed(data[2..], more);
    }
  }

  /** A second FF makes the stuffed zero after it look like data. */
  lemma ThirdZero(data: seq<Byte>, more: seq<Byte>)
    requires |data| >= 2 && data[0] != 0xff && data[1] == 0xff && |Framed(data, more)| >= 2
    ensures Loaded(Framed(data, more)) != data + Trailer(more)
  {
    hide *;
    FirstTwo(data, more);
    DeliveredZero(Framed(data[2..], more));
    DeliveredNotShorter(data[2..], more);
  }

  /** A first FF makes the stuffed zero after it look like data. */
  lemma SecondZero(data: seq<Byte>, more: seq<Byte>)
    requires |data| >= 2 && data[0] == 0xff
    ensures |Framed(data, more)| >= 2 && Loaded(Framed(data, more)) != data + Trailer(more)
  {
    hide Delivered, Trailer, Stuff;
    FramedFirst(data, more);
    DeliveredNotShorter(data[1..], more);
  }

  lemma FramedFirst(data: seq<Byte>, more: seq<Byte>)
    requires data != []
    ensures Framed(data, more) == StuffByte(data[0]) + Framed(data[1..], more)
  {
    var first, rest := StuffByte(data[0]), Stuff(data[1..]);
    assert Stuff(data) == first + rest;
    hide *;
    assert first + rest + (EOI + more) == first + (rest + (EOI + more));
  }

  /** Scan-safe data is loaded unchanged whatever follows its stuffed bytes, unless it ends in FF and nothing does. */
  lemma LoadedFront(data: seq<Byte>, more: seq<Byte>)
    requires ScanSafe(data) && (more == [] ==> data[|data| - 1] != 0xff)
    ensures |data| >= 2 && |Stuff(data) + more| >= 2 && data <= Loaded(Stuff(data) + more)
  {
    hide *;
    StuffedFront(data, more);
    DeliveredFront(data[2..], more);
    var rest := Delivered(Stuff(data[2..]) + more);
    assert data == data[..2] + data[2..] && rest == data[2..] + rest[|data| - 2..];
    assert data[..2] + (data[2..] + rest[|data| - 2..]) == data + rest[|data| - 2..];
  }

  lemma StuffedFront(data: seq<Byte>, more: seq<Byte>)
    requires ScanSafe(data)
    ensures |data| >= 2 && NoAdjacentFF(data[2..]) && |Stuff(data) + more| >= 2
    ensures Loaded(Stuff(data) + more) == data[..2] + Delivered(Stuff(data[2..]) + more)
  {
    SafeTail(data);
    StuffTwo(data);
    hide Stuff, Delivered, NoAdjacentFF;
    var raw := Stuff(data) + more;
    assert raw[..2] == data[..2] && raw[2..] == Stuff(data[2..]) + more;
  }

  lemma PlainDelivered(data: seq<Byte>, more: seq<Byte>)
    requires data != [] && data[0] != 0xff
    ensures Delivered(Stuff(data) + more) == [data[0]] + Delivered(Stuff(data[1..]) + more)
  {
    assert (Stuff(data) + more)[1..] == Stuff(data[1..]) + more;
  }

  lemma LastDelivered(data: seq<Byte>, more: seq<Byte>)
    requires data == [0xff] && more != []
    ensures data <= Delivered(Stuff(data) + more)
  {
    assert Stuff(data[1..]) == [];
    assert Stuff(data) + more == [0xff, 0, more[0]] + more[1..];
    DeliveredPair(more[0], more[1..]);
  }

  lemma {:induction false} DeliveredFront(data: seq<Byte>, more: seq<Byte>)
    requires NoAdjacentFF(data) && (more == [] && data != [] ==> data[|data| - 1] != 0xff)
    ensures data <= Delivered(Stuff(data) + more)
  {
    hide Stuff, Delivered, NoAdjacentFF;
    if data == [] {
    } else if data[0] != 0xff {
      TailAdjacent(data);
      DeliveredFront(data[1..], more);
      PlainDelivered(data, more);
      assert data == [data[0]] + data[1..];
    } else if |data| == 1 {
      LastDelivered(data, more);
    } else {
      StuffPair(data, more);
      TailAdjacent(data);
      TailAdjacent(data[1..]);
      assert data[1..][1..] == data[2..];
      DeliveredFront(data[2..], more);
      assert data == [0xff, data[1]] + data[2..];
    }
  }

  // ----- blocks -----

  /** The tables of the luminance component and of the two chrominance components. */
  datatype ScanTables = ScanTables(dcY: Entries, acY: Entries, dcC: Entries, acC: Entries) {
    function DC(c: nat): Entries { if c == 0 then dcY else dcC }
    function AC(c: nat): Entries { if c == 0 then acY else acC }

    ghost predicate Readable() {
      TablesReadable(dcY, acY) && TablesReadable(dcC, acC)
    }

    ghost predicate AllDecodable() {
      Decodable(dcY) && Decodable(acY) && Decodable(dcC) && Decodable(acC)
    }
  }

  /** Component 0 is Y, 1 is Cr, 2 is Cb. */
  type Schedule = s: seq<nat> | forall i :: 0 <= i < |s| ==> s[i] < 3

  /** What the uninitialised table holds does not matter for the coefficients (SameBlock). */
  function Blank(): (t: seq<int>)
    ensures |t| == TABLE_SIZE
  {
    seq(TABLE_SIZE, i => 0)
  }

  datatype ScanResult = ScanResult(ok: bool, blocks: seq<seq<int>>, preds: seq<int>, rest: seq<bool>)

  /** Every block finds the bits that the window looks at. */
  ghost predicate EnoughBits(bits: seq<bool>, t: ScanTables, schedule: Schedule, preds: seq<int>)
    requires t.Readable() && |preds| == 3
    decreases |schedule|
  {
    schedule != [] ==>
      var c := schedule[0];
      && EnoughBlock(bits, t.DC(c), t.AC(c))
      && var r := DecodeBlock(bits, t.DC(c), t.AC(c), preds[c], Blank());
         r.ok ==> EnoughBits(r.rest, t, schedule[1..], preds[c := r.dc])
  }

  /** Blocks are read one after the other, each with the predictor of its component, up to the first failure. */
  function DecodeScan(bits: seq<bool>, t: ScanTables, schedule: Schedule, preds: seq<int>): (r: ScanResult)
    requires t.Readable() && |preds| == 3
    requires EnoughBits(bits, t, schedule, preds)
    ensures |r.preds| == 3
    ensures r.ok ==> |r.blocks| == |schedule|
    decreases |schedule|
  {
    if schedule == [] then ScanResult(true, [], preds, bits)
    else
      var c := schedule[0];
      var b := DecodeBlock(bits, t.DC(c), t.AC(c), preds[c], Blank());
      var preds' := preds[c := b.dc];
      if !b.ok then ScanResult(false, [], preds', b.rest)
      else
        var r := DecodeScan(b.rest, t, schedule[1..], preds');
        r.(blocks := [b.table[..64]] + r.blocks)
  }

  predicate EncodableScan(blocks: seq<seq<int>>, t: ScanTables, schedule: Schedule, preds: seq<int>)
    requires |blocks| == |schedule| && |preds| == 3
    decreases |schedule|
  {
    schedule != [] ==>
      var c := schedule[0];
      && Encodable(blocks[0], t.DC(c), t.AC(c), preds[c])
      && EncodableScan(blocks[1..], t, schedule[1..], preds[c := blocks[0][0]])
  }

  function EncodeScan(blocks: seq<seq<int>>, t: ScanTables, schedule: Schedule, preds: seq<int>): seq<bool>
    requires |blocks| == |schedule| && |preds| == 3
    requires EncodableScan(blocks, t, schedule, preds)
    decreases |schedule|
  {
    if schedule == [] then []
    else
      var c := schedule[0];
      EncodeBlock(blocks[0], t.DC(c), t.AC(c), preds[c])
      + EncodeScan(blocks[1..], t, schedule[1..], preds[c := blocks[0][0]])
  }

  /** How many blocks in front need no symbol on the last row of its table. */
  function RestorableFront(blocks: seq<seq<int>>, t: ScanTables, schedule: Schedule, preds: seq<int>): (n: nat)
    requires |blocks| == |schedule| && |preds| == 3 && EncodableScan(blocks, t, schedule, preds)
    ensures n <= |blocks|
    decreases |schedule|
  {
    if schedule == [] || !Restorable(blocks[0], t.DC(schedule[0]), t.AC(schedule[0]), preds[schedule[0]]) then 0
    else 1 + RestorableFront(blocks[1..], t, schedule[1..], preds[schedule[0] := blocks[0][0]])
  }

  /** With wide tables every list of blocks with coefficients of at most m bits can be encoded and restored. */
  lemma {:induction false} EveryScanRestorable(blocks: seq<seq<int>>, t: ScanTables, schedule: Schedule,
                                              preds: seq<int>, m: nat)
    requires |blocks| == |schedule| && |preds| == 3 && m <= 15
    requires forall i :: 0 <= i < |blocks| ==> SmallEnough(blocks[i], m)
    requires forall c :: 0 <= c < 3 ==> SizeOf(preds[c]) <= m
    requires AllSizes(t.dcY, m + 1) && AllSizes(t.dcC, m + 1) && AllRuns(t.acY, m) && AllRuns(t.acC, m)
    ensures EncodableScan(blocks, t, schedule, preds) && RestorableFront(blocks, t, schedule, preds) == |blocks|
    decreases |schedule|
  {
    hide AllSizes, AllRuns, Encodable, Restorable, SizeOf;
    if schedule != [] {
      var c := schedule[0];
      EveryBlockRestorable(blocks[0], t.DC(c), t.AC(c), preds[c], m);
      EveryScanRestorable(blocks[1..], t, schedule[1..], preds[c := blocks[0][0]], m);
    }
  }

  /** The DC value of the last block of component c, or `start` when there is none. */
  function LastDC(blocks: seq<seq<int>>, schedule: Schedule, c: nat, start: int): int
    requires |blocks| == |schedule| && Blocks64(blocks)
    decreases |schedule|
  {
    if schedule == [] then start
    else
      var n := |schedule| - 1;
      if schedule[n] == c then blocks[n][0] else LastDC(blocks[..n], schedule[..n], c, start)
  }

  predicate Blocks64(blocks: seq<seq<int>>) {
    forall i :: 0 <= i < |blocks| ==> |blocks[i]| == 64
  }

  lemma {:induction false} LastDCFront(blocks: seq<seq<int>>, schedule: Schedule, c: nat, start: int)
    requires |blocks| == |schedule| && Blocks64(blocks) && blocks != []
    ensures LastDC(blocks, schedule, c, start) ==
            LastDC(blocks[1..], schedule[1..], c, if schedule[0] == c then blocks[0][0] else start)
    decreases |schedule|
  {
    var n := |schedule| - 1;
    if n > 0 && schedule[n] != c {
      LastDCFront(blocks[..n], schedule[..n], c, start);
      assert blocks[..n][1..] == blocks[1..][..n - 1];
      assert schedule[..n][1..] == schedule[1..][..n - 1];
    } else if n == 0 {
      assert blocks[..0] == [] && schedule[..0] == [];
    }
  }

  lemma {:induction false} EncodableBlocks(blocks: seq<seq<int>>, t: ScanTables, schedule: Schedule, preds: seq<int>)
    requires |blocks| == |schedule| && |preds| == 3 && EncodableScan(blocks, t, schedule, preds)
    ensures Blocks64(blocks)
    decreases |schedule|
  {
    if schedule != [] {
      EncodableBlocks(blocks[1..], t, schedule[1..], preds[schedule[0] := blocks[0][0]]);
    }
  }

  /**
    What the decoding of encoded blocks leaves: the blocks up to the first that needs a symbol on a last row, and if
    there is none, the last DC values, and the bits behind the scan.
   */
  ghost predicate ScanResolves(r: ScanResult, blocks: seq<seq<int>>, t: ScanTables, schedule: Schedule, preds: seq<int>,
                               tail: seq<bool>)
  {
    && |blocks| == |schedule| && |preds| == |r.preds| == 3 && Blocks64(blocks)
    && EncodableScan(blocks, t, schedule, preds)
    && var n := RestorableFront(blocks, t, schedule, preds);
    && r.blocks == blocks[..n] && (r.ok <==> n == |blocks|)
    && (r.ok ==> r.rest == tail && forall c :: 0 <= c < 3 ==> r.preds[c] == LastDC(blocks, schedule, c, preds[c]))
  }

  /** Decoding an encoded scan restores blocks and predictors and stops at its end, if no block needs a last row. */
  lemma {:induction false} DecodeEncodedScan(blocks: seq<seq<int>>, t: ScanTables, schedule: Schedule,
                                            preds: seq<int>, tail: seq<bool>)
    requires t.Readable() && t.AllDecodable() && |preds| == 3
    requires |blocks| == |schedule| && EncodableScan(blocks, t, schedule, preds)
    requires |tail| >= AHEAD
    ensures var bits := EncodeScan(blocks, t, schedule, preds) + tail;
            && EnoughBits(bits, t, schedule, preds)
            && ScanResolves(DecodeScan(bits, t, schedule, preds), blocks, t, schedule, preds, tail)
    decreases |schedule|
  {
    EncodableBlocks(blocks, t, schedule, preds);
    var bits := EncodeScan(blocks, t, schedule, preds) + tail;
    if schedule == [] {
      assert bits == tail;
    } else {
      var preds' := preds[schedule[0] := blocks[0][0]];
      var more := EncodeScan(blocks[1..], t, schedule[1..], preds') + tail;
      FirstDecodes(blocks, t, schedule, preds, bits, more, tail);
      DecodeEncodedScan(blocks[1..], t, schedule[1..], preds', tail);
      hide DecodesTo, ScanResolves, DecodeScan, EnoughBits, Restorable;
      if Restorable(blocks[0], t.DC(schedule[0]), t.AC(schedule[0]), preds[schedule[0]]) {
        RestoreFirst(blocks, t, schedule, preds, bits, more, tail);
      } else {
        LoseFirst(blocks, t, schedule, preds, bits, tail);
      }
    }
  }

  /** Reading one block from the bits yields `block` and leaves `more`. */
  ghost predicate DecodesTo(bits: seq<bool>, t: ScanTables, c: nat, pred: int, block: seq<int>, more: seq<bool>)
    requires t.Readable() && |block| == 64
  {
    && EnoughBlock(bits, t.DC(c), t.AC(c))
    && var b := DecodeBlock(bits, t.DC(c), t.AC(c), pred, Blank());
       b.ok && b.table[..64] == block && b.dc == block[0] && b.rest == more
  }

  /** ... or fails. */
  ghost predicate Rejects(bits: seq<bool>, t: ScanTables, c: nat, pred: int)
    requires t.Readable()
  {
    EnoughBlock(bits, t.DC(c), t.AC(c)) && !DecodeBlock(bits, t.DC(c), t.AC(c), pred, Blank()).ok
  }

  lemma FirstDecodes(blocks: seq<seq<int>>, t: ScanTables, schedule: Schedule, preds: seq<int>,
                     bits: seq<bool>, more: seq<bool>, tail: seq<bool>)
    requires t.Readable() && t.AllDecodable() && |preds| == 3 && schedule != []
    requires |blocks| == |schedule| && EncodableScan(blocks, t, schedule, preds) && |tail| >= AHEAD
    requires bits == EncodeScan(blocks, t, schedule, preds) + tail
    requires more == EncodeScan(blocks[1..], t, schedule[1..], preds[schedule[0] := blocks[0][0]]) + tail
    ensures var c := schedule[0];
            if Restorable(blocks[0], t.DC(c), t.AC(c), preds[c]) then DecodesTo(bits, t, c, preds[c], blocks[0], more)
            else Rejects(bits, t, c, preds[c])
  {
    hide DecodeBlock, EnoughBlock, EncodeBlock, Encodable, Restorable, Decodable, SymbolsBelow;
    var c := schedule[0];
    DecodeEncodedBlock(blocks[0], t.DC(c), t.AC(c), preds[c], Blank(), more);
    assert bits == EncodeBlock(blocks[0], t.DC(c), t.AC(c), preds[c]) + more;
    assert |blocks[0]| == 64 by { EncodableBlocks(blocks, t, schedule, preds); }
  }

  lemma RestoreFirst(blocks: seq<seq<int>>, t: ScanTables, schedule: Schedule, preds: seq<int>,
                     bits: seq<bool>, more: seq<bool>, tail: seq<bool>)
    requires t.Readable() && |preds| == 3 && schedule != []
    requires |blocks| == |schedule| && Blocks64(blocks) && EncodableScan(blocks, t, schedule, preds)
    requires Restorable(blocks[0], t.DC(schedule[0]), t.AC(schedule[0]), preds[schedule[0]])
    requires DecodesTo(bits, t, schedule[0], preds[schedule[0]], blocks[0], more)
    requires var preds' := preds[schedule[0] := blocks[0][0]];
             && EnoughBits(more, t, schedule[1..], preds')
             && ScanResolves(DecodeScan(more, t, schedule[1..], preds'), blocks[1..], t, schedule[1..], preds', tail)
    ensures EnoughBits(bits, t, schedule, preds)
    ensures ScanResolves(DecodeScan(bits, t, schedule, preds), blocks, t, schedule, preds, tail)
  {
    hide DecodeBlock, EnoughBlock, ScanTables.DC, ScanTables.AC, Restorable, Encodable;
    var preds' := preds[schedule[0] := blocks[0][0]];
    var n := RestorableFront(blocks[1..], t, schedule[1..], preds');
    assert blocks[..1 + n] == [blocks[0]] + blocks[1..][..n];
    forall c | 0 <= c < 3
      ensures LastDC(blocks, schedule, c, preds[c]) == LastDC(blocks[1..], schedule[1..], c, preds'[c])
    {
      LastDCFront(blocks, schedule, c, preds[c]);
    }
  }

  lemma LoseFirst(blocks: seq<seq<int>>, t: ScanTables, schedule: Schedule, preds: seq<int>, bits: seq<bool>,
                  tail: seq<bool>)
    requires t.Readable() && |preds| == 3 && schedule != []
    requires |blocks| == |schedule| && Blocks64(blocks) && EncodableScan(blocks, t, schedule, preds)
    requires !Restorable(blocks[0], t.DC(schedule[0]), t.AC(schedule[0]), preds[schedule[0]])
    requires Rejects(bits, t, schedule[0], preds[schedule[0]])
    ensures EnoughBits(bits, t, schedule, preds)
    ensures ScanResolves(DecodeScan(bits, t, schedule, preds), blocks, t, schedule, preds, tail)
  {
    hide DecodeBlock, EnoughBlock, ScanTables.DC, ScanTables.AC, Restorable, Encodable, LastDC;
    assert blocks[..0] == [];
  }

  /** How many data bytes the decoder can load behind the scan data. */
  function BytesBehind(data: seq<Byte>, more: seq<Byte>): int
    requires |data| >= 2
  {
    StuffTwo(data);
    |Loaded(Stuff(data) + more)| - |data|
  }

  /** The EOI marker alone is enough for the window, however short the padding. */
  lemma MarkerBehind(data: seq<Byte>, more: seq<Byte>)
    requires ScanSafe(data)
    ensures BytesBehind(data, EOI + more) >= 2
  {
    LoadedIffSafe(data, more);
    hide Loaded, Stuff, Delivered;
  }

  /**
    Main result for a scan as bytes: stuffed scan-safe data comes back as the blocks it encodes, up to the first
    that needs a last row, whatever follows it, if only the padding and what can be loaded behind it fill half
    the window.
   */
  lemma ScanRoundTrip(blocks: seq<seq<int>>, t: ScanTables, schedule: Schedule, preds: seq<int>,
                      pad: seq<bool>, data: seq<Byte>, more: seq<Byte>) returns (rest: seq<bool>)
    requires t.Readable() && t.AllDecodable() && |preds| == 3
    requires |blocks| == |schedule| && EncodableScan(blocks, t, schedule, preds)
    requires ScanSafe(data) && (more == [] ==> data[|data| - 1] != 0xff)
    requires BytesBits(data) == EncodeScan(blocks, t, schedule, preds) + pad
    requires |pad| + 8 * BytesBehind(data, more) >= AHEAD
    ensures |Stuff(data) + more| >= 2
    ensures pad <= rest
    ensures var bits := BytesBits(Loaded(Stuff(data) + more));
            && EnoughBits(bits, t, schedule, preds)
            && ScanResolves(DecodeScan(bits, t, schedule, preds), blocks, t, schedule, preds, rest)
  {
    hide *;
    LoadedFront(data, more);
    BehindCount(data, more);
    var loaded := Loaded(Stuff(data) + more);
    var extra := loaded[|data|..];
    rest := pad + BytesBits(extra);
    LoadedBits(data, extra, EncodeScan(blocks, t, schedule, preds), pad);
    assert loaded == data + extra;
    DecodeEncodedScan(blocks, t, schedule, preds, rest);
  }

  lemma BehindCount(data: seq<Byte>, more: seq<Byte>)
    requires |data| >= 2
    ensures |Stuff(data) + more| >= 2
    ensures BytesBehind(data, more) == |Loaded(Stuff(data) + more)| - |data|
  {
    hide Stuff, Loaded;
    StuffTwo(data);
  }

  lemma LoadedBits(data: seq<Byte>, extra: seq<Byte>, code: seq<bool>, pad: seq<bool>)
    requires BytesBits(data) == code + pad
    ensures BytesBits(data + extra) == code + (pad + BytesBits(extra))
    ensures |BytesBits(extra)| == 8 * |extra|
  {
    hide BytesBits;
    BytesBitsConcat(data, extra);
  }
}
