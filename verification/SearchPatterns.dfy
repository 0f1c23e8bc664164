/** The byte tests and the restarting matcher of the multipart extractor. */
module SearchPatterns {
  type Octet = bv8

  // ----- the CRLF test -----

  /** `(bytes << 8) | byte`, where a `char` is widened with its sign when it has one. */
  function PushByte(bytes: bv32, c: Octet, signed: bool): bv32 {
    (bytes << 8) | Widen(c, signed)
  }

  function Widen(c: Octet, signed: bool): bv32 {
    if signed && c & 0x80 != 0 then 0xffff_ff00 | c as bv32 else c as bv32
  }

  /** A mask test: all bits of 13 and 10 are there, and maybe others. */
  predicate IsCrlf(bytes: bv32) {
    bytes & 0x0d0a == 0x0d0a
  }

  /** The shift keeps the sign of an `int`, which the mask does not look at. */
  predicate IsCrlfCrlf(bytes: bv32) {
    IsCrlf(bytes) && IsCrlf(bytes >> 16)
  }

  function Pushed(bytes: bv32, data: seq<Octet>, signed: bool): bv32 {
    if data == [] then bytes
    else PushByte(Pushed(bytes, data[..|data| - 1], signed), data[|data| - 1], signed)
  }

  predicate High(c: Octet) {
    c & 0x80 != 0
  }

  /** One of the four places: its own bits count, and so does the sign of a later byte. */
  predicate Covers(c: Octet, bits: Octet, laterSign: bool) {
    c & bits == bits || laterSign
  }

  lemma PushedMore(bytes: bv32, data: seq<Octet>, c: Octet, signed: bool)
    ensures Pushed(bytes, data + [c], signed) == PushByte(Pushed(bytes, data, signed), c, signed)
  {
    hide PushByte;
    assert (data + [c])[..|data|] == data;
  }

  lemma PushedNone(bytes: bv32, signed: bool)
    ensures Pushed(bytes, [], signed) == bytes
  {}

  lemma FourPushed(bytes: bv32, a: Octet, b: Octet, c: Octet, d: Octet, signed: bool)
    ensures Pushed(bytes, [a, b, c, d], signed) ==
            PushByte(PushByte(PushByte(PushByte(bytes, a, signed), b, signed), c, signed), d, signed)
  {
    PushedMore(bytes, [], a, signed);
    PushedMore(bytes, [a], b, signed);
    PushedMore(bytes, [a, b], c, signed);
    PushedMore(bytes, [a, b, c], d, signed);
    hide PushByte, Pushed;
    assert [] + [a] == [a] && [a] + [b] == [a, b] && [a, b] + [c] == [a, b, c] && [a, b, c] + [d] == [a, b, c, d];
    PushedNone(bytes, signed);
  }

  /**
    The header counts as ended exactly when the last four bytes contain the bits of CR, LF, CR and LF in
    this order; where `char` is signed, a byte from 0x80 on stands in for everything before it.
   */
  lemma HeaderEndTest(bytes: bv32, a: Octet, b: Octet, c: Octet, d: Octet, signed: bool)
    ensures IsCrlfCrlf(Pushed(bytes, [a, b, c, d], signed)) <==>
            && Covers(a, 13, signed && (High(b) || High(c) || High(d)))
            && Covers(b, 10, signed && (High(c) || High(d)))
            && Covers(c, 13, signed && High(d))
            && Covers(d, 10, false)
  {
    FourPushed(bytes, a, b, c, d, signed);
    HeaderEndBits(bytes, a, b, c, d, signed);
  }

  lemma HeaderEndBits(bytes: bv32, a: Octet, b: Octet, c: Octet, d: Octet, signed: bool)
    ensures IsCrlfCrlf(PushByte(PushByte(PushByte(PushByte(bytes, a, signed), b, signed), c, signed), d, signed)) <==>
            && Covers(a, 13, signed && (High(b) || High(c) || High(d)))
            && Covers(b, 10, signed && (High(c) || High(d)))
            && Covers(c, 13, signed && High(d))
            && Covers(d, 10, false)
  {}

  /** An end of line that follows the letters OK passes for an empty line. */
  lemma OkLineEndsHeader(bytes: bv32, signed: bool)
    ensures IsCrlfCrlf(Pushed(bytes, [79, 75, 13, 10], signed))
  {
    HeaderEndTest(bytes, 79, 75, 13, 10, signed);
  }

  // ----- the matcher -----

  /** How much of the pattern is matched after one more byte; a byte that does not fit is not tried again. */
  function Next(p: seq<Octet>, cur: nat, c: Octet): (n: nat)
    requires cur < |p|
    ensures n <= |p|
  {
    if p[cur] == c then cur + 1 else 0
  }

  /** The same after any number of bytes, or |p| from the first full match on. */
  function Feed(p: seq<Octet>, cur: nat, data: seq<Octet>): (n: nat)
    requires cur <= |p|
    ensures n <= |p|
    decreases |data|
  {
    if data == [] || cur == |p| then cur else Feed(p, Next(p, cur, data[0]), data[1..])
  }

  /** The last n bytes seen are the first n of the pattern. */
  ghost predicate EndsWith(seen: seq<Octet>, p: seq<Octet>, n: nat) {
    n <= |p| && n <= |seen| && seen[|seen| - n..] == p[..n]
  }

  lemma NextEndsWith(seen: seq<Octet>, p: seq<Octet>, cur: nat, c: Octet)
    requires cur < |p| && EndsWith(seen, p, cur)
    ensures EndsWith(seen + [c], p, Next(p, cur, c))
  {
    if p[cur] == c {
      var s := seen + [c];
      assert s[|s| - (cur + 1)..] == seen[|seen| - cur..] + [c];
      assert p[..cur + 1] == p[..cur] + [c];
    }
  }

  lemma {:induction false} FeedSplit(p: seq<Octet>, cur: nat, a: seq<Octet>, b: seq<Octet>)
    requires cur <= |p|
    ensures Feed(p, cur, a + b) == Feed(p, Feed(p, cur, a), b)
    decreases |a|
  {
    if a == [] {
      assert a + b == b;
    } else if cur < |p| {
      assert (a + b)[1..] == a[1..] + b;
      FeedSplit(p, Next(p, cur, a[0]), a[1..], b);
    } else {
      FeedDone(p, b);
    }
  }

  lemma FeedDone(p: seq<Octet>, data: seq<Octet>)
    ensures Feed(p, |p|, data) == |p|
  {}

  ghost predicate OccursAt(text: seq<Octet>, p: seq<Octet>, i: int) {
    0 <= i && i + |p| <= |text| && text[i..i + |p|] == p
  }

  ghost predicate Contains(text: seq<Octet>, p: seq<Octet>) {
    exists i :: OccursAt(text, p, i)
  }

  lemma EndsWithAll(seen: seq<Octet>, p: seq<Octet>, more: seq<Octet>)
    requires EndsWith(seen, p, |p|)
    ensures OccursAt(seen + more, p, |seen| - |p|)
  {
    var i := |seen| - |p|;
    assert (seen + more)[i..i + |p|] == seen[i..] && p[..|p|] == p;
  }

  /** A full match means that the pattern is there, and ends with the byte that completes the match. */
  lemma {:induction false} FullMatchIsThere(p: seq<Octet>, seen: seq<Octet>, cur: nat, data: seq<Octet>)
    returns (k: nat)
    requires EndsWith(seen, p, cur) && cur < |p| == Feed(p, cur, data)
    ensures 0 < k <= |data| && Feed(p, cur, data[..k - 1]) < |p| == Feed(p, cur, data[..k])
    ensures EndsWith(seen + data[..k], p, |p|)
    decreases |data|
  {
    var n := Next(p, cur, data[0]);
    NextEndsWith(seen, p, cur, data[0]);
    hide EndsWith, Next;
    if n < |p| {
      var m := FullMatchIsThere(p, seen + [data[0]], n, data[1..]);
      k := m + 1;
      assert data[..k][1..] == data[1..][..m] && data[..m][1..] == data[1..][..m - 1];
      assert seen + data[..k] == seen + [data[0]] + data[1..][..m];
    } else {
      k := 1;
      assert data[..1] == [data[0]];
    }
  }

  /** Text that does not contain the pattern passes without a match. */
  lemma MatchedIsContained(p: seq<Octet>, text: seq<Octet>)
    requires p != []
    ensures Feed(p, 0, text) == |p| ==> Contains(text, p)
  {
    if Feed(p, 0, text) == |p| {
      var k := FullMatchIsThere(p, [], 0, text);
      hide EndsWith, Feed;
      assert [] + text[..k] == text[..k] && text[..k] + text[k..] == text;
      EndsWithAll(text[..k], p, text[k..]);
    }
  }

  /** After a byte that is not in the pattern the matcher is back at the start. */
  lemma ForeignByteResets(p: seq<Octet>, cur: nat, text: seq<Octet>, c: Octet)
    requires cur < |p| && c !in p && Feed(p, cur, text) < |p|
    ensures Feed(p, cur, text + [c]) == 0
  {
    FeedSplit(p, cur, text, [c]);
    var k := Feed(p, cur, text);
    assert p[k] in p;
    assert [c][1..] == [];
  }

  lemma {:induction false} FeedPrefix(p: seq<Octet>, cur: nat, n: nat)
    requires cur + n <= |p|
    ensures Feed(p, cur, p[cur..cur + n]) == cur + n
    decreases n
  {
    if n > 0 {
      assert p[cur..cur + n][1..] == p[cur + 1..cur + n];
      FeedPrefix(p, cur + 1, n - 1);
    }
  }

  lemma {:induction false} FeedGrows(p: seq<Octet>, cur: nat, data: seq<Octet>)
    requires cur <= |p|
    ensures Feed(p, cur, data) <= cur + |data|
    decreases |data|
  {
    if data != [] && cur < |p| { FeedGrows(p, Next(p, cur, data[0]), data[1..]); }
  }

  /** The i bytes from j on are the first i. */
  ghost predicate Overlap(p: seq<Octet>, j: nat, i: nat) {
    j + i <= |p| && p[j..j + i] == p[..i]
  }

  /** No end of the pattern is also its beginning. */
  ghost predicate Unbordered(p: seq<Octet>) {
    forall j: nat, i: nat {:trigger Overlap(p, j, i)} :: 0 < j < |p| == j + i ==> !Overlap(p, j, i)
  }

  lemma OverlapOn(p: seq<Octet>, j: nat, i: nat)
    requires Overlap(p, j, i) && j + i < |p| && p[j + i] == p[i]
    ensures Overlap(p, j, i + 1)
  {
    assert p[j..j + i + 1] == p[j..j + i] + [p[i]] && p[..i + 1] == p[..i] + [p[i]];
  }

  /** How the matcher, holding j bytes already, comes out of an occurrence of the pattern: i bytes of it are done. */
  lemma {:induction false} MissedFrom(p: seq<Octet>, j: nat, i: nat, cur: nat)
    requires 0 < j < |p| && Unbordered(p) && Overlap(p, j, i) && cur == j + i
    ensures Feed(p, cur, p[i..]) < |p|
    decreases |p| - i
  {
    if cur < |p| {
      assert p[i..][1..] == p[i + 1..];
      if p[cur] == p[i] {
        OverlapOn(p, j, i);
        MissedFrom(p, j, i + 1, cur + 1);
      } else {
        FeedGrows(p, 0, p[i + 1..]);
      }
    }
  }

  /** An occurrence of an unbordered pattern is noticed exactly when the matcher holds nothing where it begins. */
  lemma OccurrenceNoticedIff(p: seq<Octet>, cur: nat)
    requires cur < |p| && Unbordered(p)
    ensures Feed(p, cur, p) == |p| <==> cur == 0
  {
    if cur == 0 {
      FeedPrefix(p, 0, |p|);
      assert p[0..0 + |p|] == p;
    } else {
      assert p[cur..cur + 0] == p[..0];
      MissedFrom(p, cur, 0, cur);
      assert p[0..] == p;
    }
  }
}
