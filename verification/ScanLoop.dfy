/** The scan loop: four blocks per MCU, with one DC predictor per component. */
module ScanLoop {
  import opened BitStrings
  import opened HuffmanTables
  import opened LookupTables
  import opened BlockCoding
  import opened ScanCoding
  import opened ScanDecoder

  /** Two Y blocks, one Cr and one Cb block per MCU. */
  function McuSchedule(cnt: nat): (s: Schedule)
    ensures |s| == 4 * cnt
  {
    seq(4 * cnt, k requires 0 <= k => Component(k % 4))
  }

  function Component(place: nat): (c: nat)
    ensures c < 3
  {
    match place case 2 => 1 case 3 => 2 case _ => 0
  }

  /** The tables that the scan loop passes for the component ids found in the frame. */
  function TablesOf(es: seq<Entries>, tabDC: nat, tabAC: nat): ScanTables
    requires |es| == 4 && tabDC < 4 && tabAC < 4
  {
    ScanTables(es[tabDC], es[tabAC], es[2], es[3])
  }

  function Prepend(blocks: seq<seq<int>>, r: ScanResult): ScanResult {
    r.(blocks := blocks + r.blocks)
  }

  /** `blocks` have been read from `bits`; `rest` and the predictors `now` are what the next block starts from. */
  ghost predicate ScanAt(bits: seq<bool>, t: ScanTables, schedule: Schedule, blocks: seq<seq<int>>,
                         now: seq<int>, rest: seq<bool>)
  {
    && |now| == 3 && |blocks| <= |schedule| && t.Readable()
    && EnoughBits(bits, t, schedule, [0, 0, 0])
    && EnoughBits(rest, t, schedule[|blocks|..], now)
    && DecodeScan(bits, t, schedule, [0, 0, 0]) == Prepend(blocks, DecodeScan(rest, t, schedule[|blocks|..], now))
  }

  /** The whole scan gives r. */
  ghost predicate ScanYields(bits: seq<bool>, t: ScanTables, schedule: Schedule, r: ScanResult) {
    && t.Readable() && EnoughBits(bits, t, schedule, [0, 0, 0])
    && DecodeScan(bits, t, schedule, [0, 0, 0]) == r
  }

  lemma ScanStarts(bits: seq<bool>, t: ScanTables, schedule: Schedule)
    requires t.Readable() && EnoughBits(bits, t, schedule, [0, 0, 0])
    ensures ScanAt(bits, t, schedule, [], [0, 0, 0], bits)
  {
    hide DecodeScan, EnoughBits;
    assert schedule[0..] == schedule;
  }

  lemma ScanBlockBits(bits: seq<bool>, t: ScanTables, schedule: Schedule, blocks: seq<seq<int>>,
                      now: seq<int>, rest: seq<bool>)
    requires ScanAt(bits, t, schedule, blocks, now, rest) && |blocks| < |schedule|
    ensures TablesReadable(t.DC(schedule[|blocks|]), t.AC(schedule[|blocks|])) && TABLE_SIZE == 128
    ensures EnoughBlock(rest, t.DC(schedule[|blocks|]), t.AC(schedule[|blocks|]))
  {
    hide DecodeScan, DecodeBlock, EnoughBlock;
  }

  /** One block of the scan, whatever the block buffer held before. */
  lemma ScanStep(bits: seq<bool>, t: ScanTables, schedule: Schedule, blocks: seq<seq<int>>,
                 now: seq<int>, rest: seq<bool>, c: nat, initial: seq<int>, b: BlockResult)
    requires ScanAt(bits, t, schedule, blocks, now, rest) && |blocks| < |schedule|
    requires c == schedule[|blocks|] && |initial| == TABLE_SIZE && |b.table| == TABLE_SIZE
    requires TablesReadable(t.DC(c), t.AC(c)) && EnoughBlock(rest, t.DC(c), t.AC(c))
    requires DecodeBlock(rest, t.DC(c), t.AC(c), now[c], initial) == b
    ensures if b.ok then ScanAt(bits, t, schedule, blocks + [b.table[..64]], now[c := b.dc], b.rest)
            else ScanYields(bits, t, schedule, ScanResult(false, blocks, now[c := b.dc], b.rest))
  {
    var left := schedule[|blocks|..];
    SameBlock(rest, t.DC(c), t.AC(c), now[c], initial, Blank());
    assert left[0] == c && left[1..] == schedule[|blocks| + 1..];
    LeftToRead(bits, t, schedule, blocks, now, rest);
    hide *;
    var e := DecodeBlock(rest, t.DC(c), t.AC(c), now[c], Blank());
    ScanUnfold(rest, t, left, now, c, e);
    if b.ok {
      ScanContinues(bits, t, schedule, blocks, now, rest, b.table[..64], now[c := b.dc], b.rest);
    } else {
      ScanStops(bits, t, schedule, blocks, now, rest, now[c := b.dc], b.rest);
    }
  }

  lemma LeftToRead(bits: seq<bool>, t: ScanTables, schedule: Schedule, blocks: seq<seq<int>>,
                   now: seq<int>, rest: seq<bool>)
    requires ScanAt(bits, t, schedule, blocks, now, rest)
    ensures |now| == 3 && t.Readable() && EnoughBits(rest, t, schedule[|blocks|..], now)
  {
    hide DecodeScan, EnoughBits, ScanTables.Readable;
  }

  /** The first of the blocks still to be read is `block`, and from `rest'` come the others. */
  ghost predicate Continues(rest: seq<bool>, t: ScanTables, left: Schedule, now: seq<int>, block: seq<int>,
                            rest': seq<bool>, left': Schedule, now': seq<int>)
  {
    && |now| == |now'| == 3 && t.Readable() && EnoughBits(rest, t, left, now) && EnoughBits(rest', t, left', now')
    && DecodeScan(rest, t, left, now) == Prepend([block], DecodeScan(rest', t, left', now'))
  }

  /** The first of the blocks still to be read cannot be read. */
  ghost predicate Stops(rest: seq<bool>, t: ScanTables, left: Schedule, now: seq<int>,
                        now': seq<int>, rest': seq<bool>)
  {
    && |now| == |now'| == 3 && t.Readable() && EnoughBits(rest, t, left, now)
    && DecodeScan(rest, t, left, now) == ScanResult(false, [], now', rest')
  }

  lemma ScanContinues(bits: seq<bool>, t: ScanTables, schedule: Schedule, blocks: seq<seq<int>>,
                      now: seq<int>, rest: seq<bool>, block: seq<int>, now': seq<int>, rest': seq<bool>)
    requires |blocks| < |schedule|
    requires Continues(rest, t, schedule[|blocks|..], now, block, rest', schedule[|blocks| + 1..], now')
    requires ScanAt(bits, t, schedule, blocks, now, rest)
    ensures ScanAt(bits, t, schedule, blocks + [block], now', rest')
  {
    hide DecodeScan, EnoughBits, ScanTables.Readable;
    var more := DecodeScan(rest', t, schedule[|blocks| + 1..], now');
    assert blocks + ([block] + more.blocks) == blocks + [block] + more.blocks;
  }

  lemma ScanStops(bits: seq<bool>, t: ScanTables, schedule: Schedule, blocks: seq<seq<int>>,
                  now: seq<int>, rest: seq<bool>, now': seq<int>, rest': seq<bool>)
    requires |blocks| <= |schedule| && Stops(rest, t, schedule[|blocks|..], now, now', rest')
    requires ScanAt(bits, t, schedule, blocks, now, rest)
    ensures ScanYields(bits, t, schedule, ScanResult(false, blocks, now', rest'))
  {
    hide DecodeScan, EnoughBits, ScanTables.Readable;
    assert blocks + [] == blocks;
  }

  lemma ScanUnfold(bits: seq<bool>, t: ScanTables, left: Schedule, now: seq<int>, c: nat, b: BlockResult)
    requires t.Readable() && |now| == 3 && left != [] && EnoughBits(bits, t, left, now) && c == left[0]
    requires TablesReadable(t.DC(c), t.AC(c)) && EnoughBlock(bits, t.DC(c), t.AC(c))
    requires b == DecodeBlock(bits, t.DC(c), t.AC(c), now[c], Blank())
    ensures if b.ok then Continues(bits, t, left, now, b.table[..64], b.rest, left[1..], now[c := b.dc])
            else Stops(bits, t, left, now, now[c := b.dc], b.rest)
  {
    hide DecodeBlock, EnoughBlock, Blank, TablesReadable, ScanTables.DC, ScanTables.AC;
  }

  lemma ScanEnds(bits: seq<bool>, t: ScanTables, schedule: Schedule, blocks: seq<seq<int>>,
                 now: seq<int>, rest: seq<bool>)
    requires ScanAt(bits, t, schedule, blocks, now, rest) && |blocks| == |schedule|
    ensures ScanYields(bits, t, schedule, ScanResult(true, blocks, now, rest))
  {
    hide DecodeBlock, EnoughBlock;
    assert schedule[|blocks|..] == [];
    assert blocks + [] == blocks;
  }

  lemma Scheduled(cnt: nat, i: nat, n: nat)
    requires i < cnt && n == 4 * i
    ensures McuAt(McuSchedule(cnt), n)
  {}

  lemma TablesFor(es: seq<Entries>, tabDC: nat, tabAC: nat, c: nat)
    requires |es| == 4 && tabDC < 4 && tabAC < 4 && c < 3
    ensures TablesOf(es, tabDC, tabAC).DC(c) == es[if c == 0 then tabDC else 2]
    ensures TablesOf(es, tabDC, tabAC).AC(c) == es[if c == 0 then tabAC else 3]
  {}

  /** The decoder d has read `blocks` of the scan, or, when `ok` is false, has failed after them. */
  ghost predicate ReadSoFar(d: Decoder, es: seq<Entries>, t: ScanTables, bits: seq<bool>, schedule: Schedule,
                            ok: bool, blocks: seq<seq<int>>, lastDC: seq<int>)
    reads d, d.tableObjects
  {
    && d.WindowOk() && d.Knows(es) && |lastDC| == 3
    && if ok then ScanAt(bits, t, schedule, blocks, lastDC, d.Stream())
       else ScanYields(bits, t, schedule, ScanResult(false, blocks, lastDC, d.Stream()))
  }

  /** One call of `readTable` in the scan loop, for the next block of the schedule, which belongs to component c. */
  method NextBlock(d: Decoder, table: array<int>, c: nat, tabDC: nat, tabAC: nat, lastDC: seq<int>,
                   ghost es: seq<Entries>, ghost t: ScanTables, ghost bits: seq<bool>, ghost schedule: Schedule,
                   blocks: seq<seq<int>>)
    returns (ok: bool, blocks': seq<seq<int>>, lastDC': seq<int>)
    requires ReadSoFar(d, es, t, bits, schedule, true, blocks, lastDC)
    requires tabDC < 4 && tabAC < 4 && table.Length == TABLE_SIZE && table !in d.tableObjects
    requires |blocks| < |schedule| && c == schedule[|blocks|]
    requires |es| == 4 && es[tabDC] == t.DC(c) && es[tabAC] == t.AC(c)
    modifies d`Gpos, d`data, d`bitlen, table
    ensures ReadSoFar(d, es, t, bits, schedule, ok, blocks', lastDC')
    ensures ok ==> |blocks'| == |blocks| + 1
  {
    hide ScanAt, ScanYields, Decoder.Knows, Decoder.WindowOk, TABLE_SIZE, DecodeBlock, EnoughBlock, ScanTables.DC,
      ScanTables.AC;
    ghost var rest, initial := d.Stream(), table[..];
    ScanBlockBits(bits, t, schedule, blocks, lastDC, rest);
    var r, dc := d.ReadTable(tabDC, tabAC, lastDC[c], table, es);
    ok := r == 0;
    lastDC' := lastDC[c := dc];
    blocks' := blocks;
    ghost var b := BlockResult(ok, table[..], dc, d.Stream());
    ScanStep(bits, t, schedule, blocks, lastDC, rest, c, initial, b);
    if ok {
      blocks' := blocks + [table[..64]];
      assert b.table[..64] == table[..64];
    }
  }

  /** One turn of the scan loop: the four blocks of an MCU. */
  method ReadMcu(d: Decoder, tabDC: nat, tabAC: nat, lastDC: seq<int>, ghost es: seq<Entries>,
                 ghost t: ScanTables, ghost bits: seq<bool>, ghost schedule: Schedule, before: seq<seq<int>>)
    returns (ok: bool, blocks: seq<seq<int>>, lastDC': seq<int>)
    requires ReadSoFar(d, es, t, bits, schedule, true, before, lastDC)
    requires tabDC < 4 && tabAC < 4 && |es| == 4
    requires McuAt(schedule, |before|)
    requires es[tabDC] == t.DC(0) && es[tabAC] == t.AC(0)
    requires es[2] == t.DC(1) == t.DC(2) && es[3] == t.AC(1) == t.AC(2)
    modifies d`Gpos, d`data, d`bitlen
    ensures ReadSoFar(d, es, t, bits, schedule, ok, blocks, lastDC')
    ensures ok ==> |blocks| == |before| + 4
  {
    hide *;
    ghost var n := |before|;
    FourPlaces(schedule, n);
    var table := NewTable();
    ok, blocks, lastDC' := NextBlock(d, table, 0, tabDC, tabAC, lastDC, es, t, bits, schedule, before);
    if ok {
      ok, blocks, lastDC' := NextBlock(d, table, 0, tabDC, tabAC, lastDC', es, t, bits, schedule, blocks);
    }
    if ok {
      ok, blocks, lastDC' := NextBlock(d, table, 1, 2, 3, lastDC', es, t, bits, schedule, blocks);
    }
    if ok {
      ok, blocks, lastDC' := NextBlock(d, table, 2, 2, 3, lastDC', es, t, bits, schedule, blocks);
    }
  }

  method NewTable() returns (table: array<int>)
    ensures fresh(table) && table.Length == TABLE_SIZE
  {
    table := new int[TABLE_SIZE];
  }

  /** The blocks from n on are those of one MCU. */
  ghost predicate McuAt(schedule: Schedule, n: nat) {
    n + 4 <= |schedule| && schedule[n] == schedule[n + 1] == 0 && schedule[n + 2] == 1 && schedule[n + 3] == 2
  }

  lemma FourPlaces(schedule: Schedule, n: nat)
    requires McuAt(schedule, n)
    ensures n + 4 <= |schedule|
    ensures schedule[n] == schedule[n + 1] == 0 && schedule[n + 2] == 1 && schedule[n + 3] == 2
  {}

  /** Reads cnt MCUs: the coefficients that the weighting gets to see, block by block, and the three predictors. */
  method ReadScan(d: Decoder, cnt: nat, tabDC: nat, tabAC: nat, ghost es: seq<Entries>)
    returns (ok: bool, blocks: seq<seq<int>>, lastDC: seq<int>)
    requires d.WindowOk() && d.Knows(es) && tabDC < 4 && tabAC < 4 && |es| == 4
    requires TablesOf(es, tabDC, tabAC).Readable()
    requires EnoughBits(d.Stream(), TablesOf(es, tabDC, tabAC), McuSchedule(cnt), [0, 0, 0])
    modifies d`Gpos, d`data, d`bitlen
    ensures d.WindowOk() && d.Knows(es)
    ensures DecodeScan(old(d.Stream()), TablesOf(es, tabDC, tabAC), McuSchedule(cnt), [0, 0, 0])
            == ScanResult(ok, blocks, lastDC, d.Stream())
  {
    ghost var bits, t, schedule := d.Stream(), TablesOf(es, tabDC, tabAC), McuSchedule(cnt);
    ScanStarts(bits, t, schedule);
    TablesFor(es, tabDC, tabAC, 0);
    TablesFor(es, tabDC, tabAC, 1);
    TablesFor(es, tabDC, tabAC, 2);
    hide ScanAt, ScanYields, Decoder.Knows, Decoder.WindowOk, Decoder.Stream, DecodeScan, EnoughBits, TablesOf,
      McuSchedule, ScanTables.Readable, ScanTables.DC, ScanTables.AC;
    lastDC := [0, 0, 0];
    blocks := [];
    for i := 0 to cnt
      invariant ReadSoFar(d, es, t, bits, schedule, true, blocks, lastDC) && |blocks| == 4 * i
    {
      Scheduled(cnt, i, |blocks|);
      ok, blocks, lastDC := ReadMcu(d, tabDC, tabAC, lastDC, es, t, bits, schedule, blocks);
      if !ok {
        YieldsResult(bits, t, schedule, ScanResult(ok, blocks, lastDC, d.Stream()));
        return;
      }
    }
    ok := true;
    ScanEnds(bits, t, schedule, blocks, lastDC, d.Stream());
    YieldsResult(bits, t, schedule, ScanResult(ok, blocks, lastDC, d.Stream()));
  }

  lemma YieldsResult(bits: seq<bool>, t: ScanTables, schedule: Schedule, r: ScanResult)
    requires ScanYields(bits, t, schedule, r)
    ensures t.Readable() && EnoughBits(bits, t, schedule, [0, 0, 0])
    ensures DecodeScan(bits, t, schedule, [0, 0, 0]) == r
  {
    hide DecodeScan, EnoughBits, ScanTables.Readable;
  }

  /** A table pair from DHT definitions that meet the Kraft inequality can be decoded. */
  lemma CanonicalScanTables(counts: seq<seq<nat>>, symbols: seq<seq<nat>>, es: seq<Entries>, tabDC: nat, tabAC: nat)
    requires |counts| == |symbols| == |es| == 4 && tabDC < 4 && tabAC < 4
    requires forall i :: 0 <= i < 4 ==>
               && |counts[i]| == 16 && Total(counts[i], 1) <= |symbols[i]| && KraftSum(counts[i], 1) <= 65536
               && es[i] == Canonical(counts[i], symbols[i])
    ensures TablesOf(es, tabDC, tabAC).AllDecodable()
  {
    hide Canonical, Total, KraftSum;
    forall i | 0 <= i < 4 ensures Decodable(es[i]) { CanonicalDecodable(counts[i], symbols[i]); }
  }

  /**
    `read` are the blocks written up to the first that needs a symbol on the last row of its table; `ok` says that
    there is none, and then `lastDC` are the last DC values of the components.
   */
  ghost predicate Restored(ok: bool, read: seq<seq<int>>, lastDC: seq<int>, blocks: seq<seq<int>>, t: ScanTables,
                           schedule: Schedule)
  {
    && |blocks| == |schedule| && Blocks64(blocks) && EncodableScan(blocks, t, schedule, [0, 0, 0])
    && var n := RestorableFront(blocks, t, schedule, [0, 0, 0]);
    && read == blocks[..n] && (ok <==> n == |blocks|) && |lastDC| == 3
    && (ok ==> forall c :: 0 <= c < 3 ==> lastDC[c] == LastDC(blocks, schedule, c, 0))
  }

  /**
    The whole decoder on the stuffed bytes of an encoded scan, whatever follows them: exactly when no block needs a
    symbol on the last row of its table, every block comes back and each predictor ends at the last DC value of its
    component; otherwise the blocks before the first of these do.
   */
  method RestoreScan(raw: seq<Byte>, tables: seq<LookupTable>, start: nat, cnt: nat, tabDC: nat, tabAC: nat,
                     ghost es: seq<Entries>, ghost blocks: seq<seq<int>>, ghost pad: seq<bool>,
                     ghost data: seq<Byte>, ghost more: seq<Byte>)
    returns (ok: bool, read: seq<seq<int>>, lastDC: seq<int>)
    requires |tables| == |es| == 4 && tabDC < 4 && tabAC < 4
    requires forall k :: 0 <= k < 4 ==> tables[k].Represents(es[k])
    requires TablesOf(es, tabDC, tabAC).Readable() && TablesOf(es, tabDC, tabAC).AllDecodable()
    requires |blocks| == 4 * cnt && EncodableScan(blocks, TablesOf(es, tabDC, tabAC), McuSchedule(cnt), [0, 0, 0])
    requires ScanSafe(data) && (more == [] ==> data[|data| - 1] != 0xff)
    requires BytesBits(data) == EncodeScan(blocks, TablesOf(es, tabDC, tabAC), McuSchedule(cnt), [0, 0, 0]) + pad
    requires start <= |raw| && raw[start..] == Stuff(data) + more
    requires |pad| + 8 * BytesBehind(data, more) >= AHEAD
    ensures Restored(ok, read, lastDC, blocks, TablesOf(es, tabDC, tabAC), McuSchedule(cnt))
  {
    hide *;
    ghost var rest := ScanRoundTrip(blocks, TablesOf(es, tabDC, tabAC), McuSchedule(cnt), [0, 0, 0], pad, data, more);
    var d := NewDecoder(raw, tables, start, es);
    ok, read, lastDC := ReadScan(d, cnt, tabDC, tabAC, es);
    ScanRestored(TablesOf(es, tabDC, tabAC), McuSchedule(cnt), blocks, rest, ScanResult(ok, read, lastDC, d.Stream()));
  }

  /** In a frame the scan bytes are followed by the EOI marker: then nothing is asked of the padding. */
  method RestoreFrame(raw: seq<Byte>, tables: seq<LookupTable>, start: nat, cnt: nat, tabDC: nat, tabAC: nat,
                      ghost es: seq<Entries>, ghost blocks: seq<seq<int>>, ghost pad: seq<bool>,
                      ghost data: seq<Byte>, ghost more: seq<Byte>)
    returns (ok: bool, read: seq<seq<int>>, lastDC: seq<int>)
    requires |tables| == |es| == 4 && tabDC < 4 && tabAC < 4
    requires forall k :: 0 <= k < 4 ==> tables[k].Represents(es[k])
    requires TablesOf(es, tabDC, tabAC).Readable() && TablesOf(es, tabDC, tabAC).AllDecodable()
    requires |blocks| == 4 * cnt && EncodableScan(blocks, TablesOf(es, tabDC, tabAC), McuSchedule(cnt), [0, 0, 0])
    requires ScanSafe(data)
    requires BytesBits(data) == EncodeScan(blocks, TablesOf(es, tabDC, tabAC), McuSchedule(cnt), [0, 0, 0]) + pad
    requires start <= |raw| && raw[start..] == Framed(data, more)
    ensures Restored(ok, read, lastDC, blocks, TablesOf(es, tabDC, tabAC), McuSchedule(cnt))
  {
    hide TablesOf, EncodableScan, EncodeScan, ScanTables.Readable, ScanTables.AllDecodable, BytesBits, BytesBehind,
      Stuff, McuSchedule, LookupTable.Represents, Restored;
    MarkerBehind(data, more);
    ok, read, lastDC := RestoreScan(raw, tables, start, cnt, tabDC, tabAC, es, blocks, pad, data, EOI + more);
  }

  lemma ScanRestored(t: ScanTables, schedule: Schedule, blocks: seq<seq<int>>, rest: seq<bool>, r: ScanResult)
    requires ScanResolves(r, blocks, t, schedule, [0, 0, 0], rest)
    ensures Restored(r.ok, r.blocks, r.preds, blocks, t, schedule)
  {
    hide Blocks64, LastDC, EncodableScan, RestorableFront;
    if r.ok {
      forall c | 0 <= c < 3 ensures r.preds[c] == LastDC(blocks, schedule, c, 0) {
        assert [0, 0, 0][c] == 0;
      }
    }
  }

  method NewDecoder(raw: seq<Byte>, tables: seq<LookupTable>, start: nat, ghost es: seq<Entries>) returns (d: Decoder)
    requires start + 2 <= |raw| && |tables| == |es| == 4
    requires forall k :: 0 <= k < 4 ==> tables[k].Represents(es[k])
    ensures fresh(d) && d.WindowOk() && d.Knows(es)
    ensures d.Stream() == BytesBits(Loaded(raw[start..]))
  {
    hide LookupTable.Represents, Loaded, BytesBits, Decoder.WindowOk, Decoder.Stream;
    d := new Decoder(raw, tables, start);
    forall k | 0 <= k < 4 ensures tables[k].Repr() <= d.tableObjects && tables[k].Represents(es[k]) {}
  }
}
