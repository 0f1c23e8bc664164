/**
  The multipart extractor on whole byte streams: a header up to the first hit of the CRLF mask, then content
  up to the boundary (section 5.1.1 of RFC 2046), over and over.
 */
module MultipartStream {
  import opened SearchPatterns

  /** "Content-Length:" */
  const CONTENT_LENGTH: seq<Octet> := [67, 111, 110, 116, 101, 110, 116, 45, 76, 101, 110, 103, 116, 104, 58]

  /** "--boundarydonotcross" */
  const BOUNDARY: seq<Octet> :=
    [45, 45, 98, 111, 117, 110, 100, 97, 114, 121, 100, 111, 110, 111, 116, 99, 114, 111, 115, 115]

  const CRLF: seq<Octet> := [13, 10]

  const BUFFER_SIZE := 1024 * 256

  /** The last byte of the buffer stays unused. */
  const LIMIT := BUFFER_SIZE - 1

  /** What the matchers, the CRLF and the boundary need to know of each other. */
  lemma Patterns()
    ensures |CONTENT_LENGTH| == 15 && |BOUNDARY| == 20 && |CRLF| == 2 && LIMIT == 262143
    ensures CRLF == [13] + [10] && 13 !in BOUNDARY && 10 !in BOUNDARY
  {}

  /** ASCII */
  function Letter(c: char): Octet {
    if c < '\U{80}' then c as bv8 else 0
  }

  function Letters(text: string): (r: seq<Octet>)
    ensures |r| == |text|
    decreases |text|
  {
    if text == "" then [] else [Letter(text[0])] + Letters(text[1..])
  }

  lemma LetterCodes()
    ensures Letter('-') == 45 && Letter('b') == 98 && Letter('o') == 111
    ensures Letter('u') == 117 && Letter('n') == 110
  {}

  lemma LetterCodesOn()
    ensures Letter('d') == 100 && Letter('a') == 97 && Letter('r') == 114
    ensures Letter('y') == 121 && Letter('t') == 116
  {}

  lemma LetterCodesEnd()
    ensures Letter('c') == 99 && Letter('s') == 115 && Letter('C') == 67
    ensures Letter('e') == 101 && Letter('L') == 76
  {}

  lemma LetterCodesRest()
    ensures Letter('g') == 103 && Letter('h') == 104 && Letter(':') == 58
  {}

  lemma {:induction false} LettersAt(text: string, i: nat)
    requires i < |text|
    ensures Letters(text)[i] == Letter(text[i])
    decreases |text|
  {
    hide Letter;
    if i > 0 { LettersAt(text[1..], i - 1); }
  }

  /** The patterns as text. */
  lemma PatternTexts()
    ensures BOUNDARY == Letters("--boundarydonotcross") && CONTENT_LENGTH == Letters("Content-Length:")
  {
    hide Letter, Letters;
    LetterCodes();
    LetterCodesOn();
    LetterCodesEnd();
    LetterCodesRest();
    forall i | 0 <= i < 20 ensures BOUNDARY[i] == Letters("--boundarydonotcross")[i] {
      LettersAt("--boundarydonotcross", i);
    }
    forall i | 0 <= i < 15 ensures CONTENT_LENGTH[i] == Letters("Content-Length:")[i] {
      LettersAt("Content-Length:", i);
    }
  }

  lemma BoundaryUnbordered()
    ensures Unbordered(BOUNDARY)
  {
    var p := BOUNDARY;
    forall j: nat, i: nat | 0 < j < |p| == j + i ensures !Overlap(p, j, i) {
      assert p[j..j + i][0] == p[j] && p[..i][0] == p[0];
      if j == 1 { assert p[1..1 + i][1] == p[2] && p[..i][1] == p[1]; }
    }
  }

  datatype Part = HEADER | CONTENT

  /** What the callback gets: a length, and that many bytes. */
  datatype Image = Image(length: int, data: seq<Octet>)

  /** The content without the boundary and the two bytes before it; the length can come out negative. */
  function Picture(content: seq<Octet>): (i: Image)
    ensures i.length == |content| - 22
    ensures i.length >= 0 ==> |i.data| == i.length && i.data <= content
  {
    var length := |content| - 22;
    Image(length, if length < 0 then [] else content[..length])
  }

  datatype State = State(part: Part, lastFour: bv32, contentLength: nat, boundary: nat,
                         content: seq<Octet>, images: seq<Image>) {
    ghost predicate Live() {
      && contentLength < |CONTENT_LENGTH| && boundary < |BOUNDARY| && |content| <= LIMIT
      && (part == HEADER ==> boundary == 0 && content == [])
      && EndsWith(content, BOUNDARY, boundary)
    }
  }

  function Start(images: seq<Image>): State {
    State(HEADER, 0, 0, 0, [], images)
  }

  function HeaderStep(s: State, c: Octet, signed: bool): State
    requires s.Live()
  {
    var w := PushByte(s.lastFour, c, signed);
    if IsCrlfCrlf(w) then s.(part := CONTENT, lastFour := w)
    else if IsCrlf(w) then s.(lastFour := w, contentLength := 0)
    else
      var n := Next(CONTENT_LENGTH, s.contentLength, c);
      s.(lastFour := w, contentLength := if n == |CONTENT_LENGTH| then 0 else n)
  }

  function ContentStep(s: State, c: Octet): State
    requires s.Live()
  {
    if |s.content| >= LIMIT then s
    else
      var n := Next(BOUNDARY, s.boundary, c);
      if n == |BOUNDARY| then Start(s.images + [Picture(s.content + [c])])
      else s.(content := s.content + [c], boundary := n)
  }

  lemma StartLive(images: seq<Image>)
    ensures Start(images).Live()
  {
    Patterns();
  }

  lemma HeaderStepLive(s: State, c: Octet, signed: bool)
    requires s.Live() && s.part == HEADER
    ensures HeaderStep(s, c, signed).Live()
  {
    Patterns();
    hide BOUNDARY, CONTENT_LENGTH, LIMIT, PushByte, IsCrlf, IsCrlfCrlf, EndsWith;
  }

  lemma ContentStepLive(s: State, c: Octet)
    requires s.Live() && s.part == CONTENT
    ensures ContentStep(s, c).Live()
  {
    Patterns();
    NextEndsWith(s.content, BOUNDARY, s.boundary, c);
    StartLive(s.images + [Picture(s.content + [c])]);
    hide BOUNDARY, CONTENT_LENGTH, LIMIT, EndsWith, Start, Next;
  }

  /** One turn of the loop of `extract_data`. */
  function Step(s: State, c: Octet, signed: bool): (t: State)
    requires s.Live()
    ensures t.Live()
  {
    match s.part
    case HEADER => HeaderStepLive(s, c, signed); HeaderStep(s, c, signed)
    case CONTENT => ContentStepLive(s, c); ContentStep(s, c)
  }

  function Run(s: State, data: seq<Octet>, signed: bool): (t: State)
    requires s.Live()
    ensures t.Live()
    decreases |data|
  {
    if data == [] then s else Run(Step(s, data[0], signed), data[1..], signed)
  }

  /** Where the stream is cut between two calls makes no difference. */
  lemma {:induction false} RunSplit(s: State, a: seq<Octet>, b: seq<Octet>, signed: bool)
    requires s.Live()
    ensures Run(s, a + b, signed) == Run(Run(s, a, signed), b, signed)
    decreases |a|
  {
    hide Step, State.Live;
    if a == [] {
      assert a + b == b;
    } else {
      assert (a + b)[1..] == a[1..] + b;
      RunSplit(Step(s, a[0], signed), a[1..], b, signed);
    }
  }

  // ----- headers -----

  /** The mask test hits for the first time at the end of h. */
  predicate HeaderOk(w: bv32, h: seq<Octet>, signed: bool)
    decreases |h|
  {
    && h != []
    && var w' := PushByte(w, h[0], signed);
       if IsCrlfCrlf(w') then |h| == 1 else HeaderOk(w', h[1..], signed)
  }

  /** The mask test does not hit in h. */
  predicate HeaderOpen(w: bv32, h: seq<Octet>, signed: bool)
    decreases |h|
  {
    h != [] ==>
      var w' := PushByte(w, h[0], signed);
      !IsCrlfCrlf(w') && HeaderOpen(w', h[1..], signed)
  }

  /** The content begins. */
  ghost predicate AtContent(s: State, images: seq<Image>) {
    s.Live() && s.part == CONTENT && s.boundary == 0 && s.content == [] && s.images == images
  }

  lemma {:induction false} HeaderRun(s: State, h: seq<Octet>, signed: bool)
    requires s.Live() && s.part == HEADER && HeaderOk(s.lastFour, h, signed)
    ensures AtContent(Run(s, h, signed), s.images)
    decreases |h|
  {
    hide PushByte, IsCrlfCrlf, IsCrlf, EndsWith, Next, CONTENT_LENGTH, BOUNDARY;
    var t := Step(s, h[0], signed);
    if |h| > 1 {
      HeaderRun(t, h[1..], signed);
    } else {
      assert h[1..] == [];
    }
  }

  lemma {:induction false} OpenHeaderRun(s: State, h: seq<Octet>, signed: bool)
    requires s.Live() && s.part == HEADER && HeaderOpen(s.lastFour, h, signed)
    ensures Run(s, h, signed).part == HEADER && Run(s, h, signed).images == s.images
    decreases |h|
  {
    hide PushByte, IsCrlfCrlf, IsCrlf, EndsWith, Next, CONTENT_LENGTH, BOUNDARY;
    if h != [] { OpenHeaderRun(Step(s, h[0], signed), h[1..], signed); }
  }

  // ----- content -----

  /** The boundary is matched for the first time at the end of c. */
  predicate ContentOk(cur: nat, c: seq<Octet>)
    requires cur < |BOUNDARY|
    decreases |c|
  {
    && c != []
    && var n := Next(BOUNDARY, cur, c[0]);
       if n == |BOUNDARY| then |c| == 1 else ContentOk(n, c[1..])
  }

  /** The reported content ends in the boundary. */
  lemma {:induction false} ContentEndsInBoundary(seen: seq<Octet>, cur: nat, c: seq<Octet>)
    requires cur < |BOUNDARY| && EndsWith(seen, BOUNDARY, cur) && ContentOk(cur, c)
    ensures EndsWith(seen + c, BOUNDARY, |BOUNDARY|)
    decreases |c|
  {
    NextEndsWith(seen, BOUNDARY, cur, c[0]);
    hide EndsWith, BOUNDARY, Next;
    assert seen + c == seen + [c[0]] + c[1..];
    if |c| > 1 {
      ContentEndsInBoundary(seen + [c[0]], Next(BOUNDARY, cur, c[0]), c[1..]);
    } else {
      assert c == [c[0]];
    }
  }

  lemma {:induction false} ContentRun(s: State, c: seq<Octet>, signed: bool)
    requires s.Live() && s.part == CONTENT && ContentOk(s.boundary, c) && |s.content| + |c| <= LIMIT
    ensures Run(s, c, signed) == Start(s.images + [Picture(s.content + c)])
    decreases |c|
  {
    hide EndsWith, BOUNDARY, CONTENT_LENGTH, Next, LIMIT, Picture;
    if |c| > 1 {
      assert s.content + [c[0]] + c[1..] == s.content + c;
      ContentRun(Step(s, c[0], signed), c[1..], signed);
    } else {
      assert c == [c[0]];
      assert Run(s, c, signed) == Step(s, c[0], signed) by { assert c[1..] == []; }
    }
  }

  /** Content without a full match is kept as long as it fits. */
  lemma {:induction false} OpenContentRun(s: State, c: seq<Octet>, signed: bool)
    requires s.Live() && s.part == CONTENT && |s.content| + |c| <= LIMIT
    requires Feed(BOUNDARY, s.boundary, c) < |BOUNDARY|
    ensures Run(s, c, signed) == s.(content := s.content + c, boundary := Feed(BOUNDARY, s.boundary, c))
    decreases |c|
  {
    hide EndsWith, BOUNDARY, CONTENT_LENGTH, Next, LIMIT;
    if c == [] {
      assert s.content + c == s.content;
    } else {
      assert s.content + [c[0]] + c[1..] == s.content + c;
      OpenContentRun(Step(s, c[0], signed), c[1..], signed);
    }
  }

  /** Once the buffer is full nothing changes any more: the matcher stands still and no image is reported again. */
  lemma {:induction false} FullBufferIsStuck(s: State, data: seq<Octet>, signed: bool)
    requires s.Live() && s.part == CONTENT && |s.content| == LIMIT
    ensures Run(s, data, signed) == s
    decreases |data|
  {
    if data != [] { FullBufferIsStuck(s, data[1..], signed); }
  }

  // ----- whole streams -----

  datatype Segment = Segment(header: seq<Octet>, content: seq<Octet>) {
    predicate Ok(signed: bool) {
      HeaderOk(0, header, signed) && 0 < |BOUNDARY| && ContentOk(0, content) && |content| <= LIMIT
    }
  }

  predicate SegmentsOk(segs: seq<Segment>, signed: bool) {
    forall i :: 0 <= i < |segs| ==> segs[i].Ok(signed)
  }

  lemma SegmentsEndInBoundary(segs: seq<Segment>, signed: bool)
    requires SegmentsOk(segs, signed)
    ensures forall i :: 0 <= i < |segs| ==> EndsWith(segs[i].content, BOUNDARY, |BOUNDARY|)
  {
    hide BOUNDARY, ContentOk, HeaderOk;
    forall i | 0 <= i < |segs| ensures EndsWith(segs[i].content, BOUNDARY, |BOUNDARY|) {
      assert segs[i].Ok(signed);
      ContentEndsInBoundary([], 0, segs[i].content);
      assert [] + segs[i].content == segs[i].content;
    }
  }

  function Bytes(segs: seq<Segment>): seq<Octet> {
    if segs == [] then [] else segs[0].header + segs[0].content + Bytes(segs[1..])
  }

  function Pictures(segs: seq<Segment>): seq<Image> {
    if segs == [] then [] else [Picture(segs[0].content)] + Pictures(segs[1..])
  }

  lemma SegmentRun(images: seq<Image>, seg: Segment, signed: bool)
    requires Start(images).Live() && seg.Ok(signed)
    ensures Run(Start(images), seg.header + seg.content, signed) == Start(images + [Picture(seg.content)])
  {
    HeaderRun(Start(images), seg.header, signed);
    hide Run, HeaderOk, ContentOk, EndsWith, Picture;
    var s := Run(Start(images), seg.header, signed);
    RunSplit(Start(images), seg.header, seg.content, signed);
    ContentRun(s, seg.content, signed);
    assert s.content + seg.content == seg.content;
  }

  lemma {:induction false} SegmentsRun(images: seq<Image>, segs: seq<Segment>, rest: seq<Octet>, signed: bool)
    requires SegmentsOk(segs, signed)
    ensures Start(images).Live() && Start(images + Pictures(segs)).Live()
    ensures Run(Start(images), Bytes(segs) + rest, signed) == Run(Start(images + Pictures(segs)), rest, signed)
    decreases |segs|
  {
    StartLive(images);
    StartLive(images + Pictures(segs));
    hide Run, State.Live, Segment.Ok, Picture, Start;
    if segs == [] {
      assert Bytes(segs) + rest == rest && images + Pictures(segs) == images;
    } else {
      var first := segs[0].header + segs[0].content;
      var images' := images + [Picture(segs[0].content)];
      assert Bytes(segs) + rest == first + (Bytes(segs[1..]) + rest);
      assert images' + Pictures(segs[1..]) == images + Pictures(segs);
      RunSplit(Start(images), first, Bytes(segs[1..]) + rest, signed);
      SegmentRun(images, segs[0], signed);
      SegmentsRun(images', segs[1..], rest, signed);
    }
  }

  // ----- frames -----

  /** A frame as the server sends it: after a header, and followed by CRLF and the boundary. */
  datatype Frame = Frame(header: seq<Octet>, jpeg: seq<Octet>) {
    predicate Ok(signed: bool) {
      HeaderOk(0, header, signed) && Quiet(jpeg) && |jpeg| + |CRLF| + |BOUNDARY| <= LIMIT
    }

    function AsSegment(): Segment {
      Segment(header, jpeg + CRLF + BOUNDARY)
    }
  }

  /** The matcher finds nothing in the frame. */
  predicate Quiet(jpeg: seq<Octet>) {
    0 < |BOUNDARY| && Feed(BOUNDARY, 0, jpeg) < |BOUNDARY|
  }

  function Segments(frames: seq<Frame>): (segs: seq<Segment>)
    ensures |segs| == |frames|
    ensures forall i :: 0 <= i < |segs| ==> segs[i] == frames[i].AsSegment()
  {
    seq(|frames|, i requires 0 <= i < |frames| => frames[i].AsSegment())
  }

  function Stream(frames: seq<Frame>): seq<Octet> {
    Bytes(Segments(frames))
  }

  function Jpegs(frames: seq<Frame>): (images: seq<Image>)
    ensures |images| == |frames|
    ensures forall i :: 0 <= i < |images| ==> images[i] == Image(|frames[i].jpeg|, frames[i].jpeg)
  {
    seq(|frames|, i requires 0 <= i < |frames| => Image(|frames[i].jpeg|, frames[i].jpeg))
  }

  lemma {:induction false} ContentOkFromFeed(cur: nat, c: seq<Octet>, last: Octet)
    requires cur < |BOUNDARY| && Feed(BOUNDARY, cur, c) < |BOUNDARY|
    requires Next(BOUNDARY, Feed(BOUNDARY, cur, c), last) == |BOUNDARY|
    ensures ContentOk(cur, c + [last])
    decreases |c|
  {
    hide BOUNDARY, Next;
    if c != [] {
      assert (c + [last])[1..] == c[1..] + [last];
      ContentOkFromFeed(Next(BOUNDARY, cur, c[0]), c[1..], last);
    }
  }

  /** Where the matcher stands after a quiet frame and the CRLF, and after most of the boundary. */
  lemma QuietEnds(jpeg: seq<Octet>, n: nat)
    requires Quiet(jpeg) && n < |BOUNDARY|
    ensures Feed(BOUNDARY, 0, jpeg + CRLF + BOUNDARY[..n]) == n
  {
    Patterns();
    hide BOUNDARY, CRLF, Feed;
    ForeignByteResets(BOUNDARY, 0, jpeg, 13);
    ForeignByteResets(BOUNDARY, 0, jpeg + [13], 10);
    assert jpeg + CRLF == jpeg + [13] + [10];
    FeedSplit(BOUNDARY, 0, jpeg + CRLF, BOUNDARY[..n]);
    FeedPrefix(BOUNDARY, 0, n);
    assert BOUNDARY[0..0 + n] == BOUNDARY[..n];
  }

  lemma FrameContentOk(jpeg: seq<Octet>)
    requires Quiet(jpeg)
    ensures 0 < |BOUNDARY| && ContentOk(0, jpeg + CRLF + BOUNDARY)
  {
    Patterns();
    hide BOUNDARY, CRLF, Feed, ContentOk;
    var n := |BOUNDARY| - 1;
    QuietEnds(jpeg, n);
    ContentOkFromFeed(0, jpeg + CRLF + BOUNDARY[..n], BOUNDARY[n]);
    assert jpeg + CRLF + BOUNDARY[..n] + [BOUNDARY[n]] == jpeg + CRLF + BOUNDARY;
  }

  lemma FrameSegmentOk(f: Frame, signed: bool)
    requires f.Ok(signed)
    ensures f.AsSegment().Ok(signed) && Picture(f.AsSegment().content) == Image(|f.jpeg|, f.jpeg)
  {
    FrameContentOk(f.jpeg);
    Patterns();
    hide BOUNDARY, CRLF, ContentOk, HeaderOk, Quiet;
    var c := f.jpeg + CRLF + BOUNDARY;
    assert c[..|f.jpeg|] == f.jpeg;
  }

  lemma {:induction false} PicturesOfFrames(frames: seq<Frame>, segs: seq<Segment>, signed: bool)
    requires |segs| == |frames|
    requires forall i :: 0 <= i < |frames| ==> frames[i].Ok(signed) && segs[i] == frames[i].AsSegment()
    ensures SegmentsOk(segs, signed) && Pictures(segs) == Jpegs(frames)
    decreases |frames|
  {
    hide Frame.Ok, Segment.Ok, Picture, Frame.AsSegment;
    forall i | 0 <= i < |segs| ensures segs[i].Ok(signed) { FrameSegmentOk(frames[i], signed); }
    if frames != [] {
      FrameSegmentOk(frames[0], signed);
      PicturesOfFrames(frames[1..], segs[1..], signed);
    }
  }

  /** Main result: every frame that was sent is reported, in order and with exactly its bytes, and nothing else is. */
  lemma StreamRoundTrip(images: seq<Image>, frames: seq<Frame>, signed: bool)
    requires forall i :: 0 <= i < |frames| ==> frames[i].Ok(signed)
    ensures Start(images).Live()
    ensures Run(Start(images), Stream(frames), signed) == Start(images + Jpegs(frames))
  {
    StartLive(images);
    var segs := Segments(frames);
    PicturesOfFrames(frames, segs, signed);
    SegmentsRun(images, segs, [], signed);
    assert Bytes(segs) + [] == Bytes(segs);
  }

  /** A frame that does not contain the boundary is quiet. */
  lemma PlainFrameIsQuiet(jpeg: seq<Octet>)
    requires !Contains(jpeg, BOUNDARY)
    ensures Quiet(jpeg)
  {
    Patterns();
    MatchedIsContained(BOUNDARY, jpeg);
  }

  /** Every boundary after a byte that does not occur in it ends the image, if no other did before and it fits. */
  lemma BoundaryAfterForeignByte(s: State, text: seq<Octet>, c: Octet, signed: bool)
    requires AtContent(s, s.images) && Quiet(text) && c !in BOUNDARY && |text| + 1 + |BOUNDARY| <= LIMIT
    ensures Run(s, text + [c] + BOUNDARY, signed) == Start(s.images + [Picture(text + [c] + BOUNDARY)])
  {
    Patterns();
    hide BOUNDARY, CRLF, Feed, ContentOk, EndsWith, Run, LIMIT, Picture;
    var n := |BOUNDARY| - 1;
    ForeignByteResets(BOUNDARY, 0, text, c);
    FeedSplit(BOUNDARY, 0, text + [c], BOUNDARY[..n]);
    FeedPrefix(BOUNDARY, 0, n);
    assert BOUNDARY[0..0 + n] == BOUNDARY[..n];
    ContentOkFromFeed(0, text + [c] + BOUNDARY[..n], BOUNDARY[n]);
    assert text + [c] + BOUNDARY[..n] + [BOUNDARY[n]] == text + [c] + BOUNDARY;
    ContentRun(s, text + [c] + BOUNDARY, signed);
    assert s.content + (text + [c] + BOUNDARY) == text + [c] + BOUNDARY;
  }

  /** A boundary after a dash is missed; one where the matcher holds nothing is not. */
  lemma BoundaryNoticedIff(cur: nat)
    requires cur < |BOUNDARY|
    ensures Feed(BOUNDARY, cur, BOUNDARY) == |BOUNDARY| <==> cur == 0
  {
    BoundaryUnbordered();
    OccurrenceNoticedIff(BOUNDARY, cur);
  }

  /** A boundary directly behind a dash is there, and the matcher does not notice it. */
  lemma DashHidesBoundary()
    ensures Contains([45] + BOUNDARY, BOUNDARY) && Quiet([45] + BOUNDARY)
  {
    Patterns();
    assert OccursAt([45] + BOUNDARY, BOUNDARY, 1) by {
      hide BOUNDARY;
      assert ([45] + BOUNDARY)[1..1 + |BOUNDARY|] == BOUNDARY;
    }
    assert BOUNDARY[0] == 45;
    hide BOUNDARY;
    FeedSplit(BOUNDARY, 0, [45], BOUNDARY);
    assert [45][1..] == [];
    BoundaryNoticedIff(1);
  }

  /** A quiet frame that does not fit is never reported, and neither is any frame after it. */
  lemma LongFrameIsLost(s: State, jpeg: seq<Octet>, rest: seq<Octet>, signed: bool)
    requires AtContent(s, s.images) && Quiet(jpeg) && |jpeg| + |CRLF| + |BOUNDARY| > LIMIT
    ensures Run(s, jpeg + CRLF + BOUNDARY + rest, signed).images == s.images
  {
    Patterns();
    hide BOUNDARY, CRLF, LIMIT, Run, EndsWith, Feed;
    var n := |BOUNDARY| - 1;
    QuietEnds(jpeg, n);
    var start := jpeg + CRLF + BOUNDARY[..n];
    var kept, lost := start[..LIMIT], start[LIMIT..] + [BOUNDARY[n]] + rest;
    FeedSplit(BOUNDARY, 0, kept, start[LIMIT..]);
    assert kept + start[LIMIT..] == start;
    if Feed(BOUNDARY, 0, kept) == |BOUNDARY| { FeedDone(BOUNDARY, start[LIMIT..]); }
    assert jpeg + CRLF + BOUNDARY + rest == kept + lost;
    RunSplit(s, kept, lost, signed);
    OpenContentRun(s, kept, signed);
    FullBufferIsStuck(Run(s, kept, signed), lost, signed);
  }

  // ----- every stream -----

  lemma {:induction false} FirstMatch(cur: nat, c: seq<Octet>) returns (k: nat)
    requires cur < |BOUNDARY| == Feed(BOUNDARY, cur, c)
    ensures 0 < k <= |c| && ContentOk(cur, c[..k])
    decreases |c|
  {
    hide BOUNDARY, Next;
    var n := Next(BOUNDARY, cur, c[0]);
    if n == |BOUNDARY| {
      k := 1;
    } else {
      var m := FirstMatch(n, c[1..]);
      k := m + 1;
      assert c[..k][1..] == c[1..][..m];
    }
  }

  lemma {:induction false} FirstHit(w: bv32, h: seq<Octet>, signed: bool) returns (k: nat)
    requires !HeaderOpen(w, h, signed)
    ensures 0 < k <= |h| && HeaderOk(w, h[..k], signed)
    decreases |h|
  {
    hide PushByte, IsCrlfCrlf;
    var w' := PushByte(w, h[0], signed);
    if IsCrlfCrlf(w') {
      k := 1;
    } else {
      var m := FirstHit(w', h[1..], signed);
      k := m + 1;
      assert h[..k][1..] == h[1..][..m];
    }
  }

  lemma {:induction false} EarlierMatch(cur: nat, c: seq<Octet>, k: nat)
    requires cur < |BOUNDARY| && ContentOk(cur, c) && k < |c|
    ensures Feed(BOUNDARY, cur, c[..k]) < |BOUNDARY|
    decreases |c|
  {
    hide BOUNDARY, Next;
    if k > 0 {
      assert c[..k][1..] == c[1..][..k - 1];
      EarlierMatch(Next(BOUNDARY, cur, c[0]), c[1..], k - 1);
    }
  }

  /** Content in which the part that fits holds no full match is not reported, whatever its length. */
  lemma SilentContent(s: State, c: seq<Octet>, signed: bool)
    requires AtContent(s, s.images)
    requires Feed(BOUNDARY, 0, if |c| <= LIMIT then c else c[..LIMIT]) < |BOUNDARY|
    ensures Run(s, c, signed).images == s.images
  {
    hide BOUNDARY, CRLF, LIMIT, Run, EndsWith, Feed;
    if |c| <= LIMIT {
      OpenContentRun(s, c, signed);
    } else {
      assert c == c[..LIMIT] + c[LIMIT..];
      RunSplit(s, c[..LIMIT], c[LIMIT..], signed);
      OpenContentRun(s, c[..LIMIT], signed);
      FullBufferIsStuck(Run(s, c[..LIMIT], signed), c[LIMIT..], signed);
    }
  }

  /** Content up to the first full match, if that does not come in time. */
  lemma LateMatch(c: seq<Octet>, m: nat)
    requires 0 < |BOUNDARY| && LIMIT < m <= |c| && ContentOk(0, c[..m])
    ensures Feed(BOUNDARY, 0, c[..LIMIT]) < |BOUNDARY|
  {
    EarlierMatch(0, c[..m], LIMIT);
    assert c[..m][..LIMIT] == c[..LIMIT];
  }

  /** The stream holds no complete segment at its front. */
  lemma NoSegment(images: seq<Image>, data: seq<Octet>, k: nat, signed: bool)
    requires k <= |data| && HeaderOk(0, data[..k], signed)
    requires Feed(BOUNDARY, 0, if |data[k..]| <= LIMIT then data[k..] else data[k..][..LIMIT]) < |BOUNDARY|
    ensures Start(images).Live() && Run(Start(images), data, signed).images == images
  {
    StartLive(images);
    hide HeaderOk, Feed, EndsWith, Run, BOUNDARY, LIMIT;
    HeaderRun(Start(images), data[..k], signed);
    assert data == data[..k] + data[k..];
    RunSplit(Start(images), data[..k], data[k..], signed);
    SilentContent(Run(Start(images), data[..k], signed), data[k..], signed);
  }

  lemma OneSegmentMore(seg: Segment, segs: seq<Segment>, rest: seq<Octet>, signed: bool)
    requires seg.Ok(signed) && SegmentsOk(segs, signed)
    ensures SegmentsOk([seg] + segs, signed)
    ensures seg.header + seg.content + (Bytes(segs) + rest) == Bytes([seg] + segs) + rest
  {
    hide Segment.Ok;
    assert ([seg] + segs)[1..] == segs;
  }

  /**
    The images a stream yields are the contents of its complete segments, each of which ends in the boundary;
    what is left over yields none.
   */
  lemma {:induction false} Decompose(images: seq<Image>, data: seq<Octet>, signed: bool)
    returns (segs: seq<Segment>, rest: seq<Octet>)
    ensures SegmentsOk(segs, signed) && data == Bytes(segs) + rest
    ensures forall i :: 0 <= i < |segs| ==> EndsWith(segs[i].content, BOUNDARY, |BOUNDARY|)
    ensures Start(images).Live() && Run(Start(images), data, signed).images == images + Pictures(segs)
    decreases |data|
  {
    StartLive(images);
    Patterns();
    hide HeaderOk, HeaderOpen, ContentOk, Feed, EndsWith, Run, BOUNDARY, LIMIT, CRLF, Picture;
    segs, rest := [], data;
    assert Bytes([]) + data == data && images + Pictures([]) == images;
    if HeaderOpen(0, data, signed) {
      OpenHeaderRun(Start(images), data, signed);
    } else {
      var k := FirstHit(0, data, signed);
      var c := data[k..];
      var fits := if |c| <= LIMIT then c else c[..LIMIT];
      if Feed(BOUNDARY, 0, fits) < |BOUNDARY| {
        NoSegment(images, data, k, signed);
      } else {
        var m := FirstMatch(0, fits);
        assert fits[..m] == c[..m] == data[k..k + m];
        var seg := Segment(data[..k], data[k..k + m]);
        var segs';
        segs', rest := Decompose(images + [Picture(seg.content)], data[k + m..], signed);
        segs := [seg] + segs';
        OneSegmentMore(seg, segs', rest, signed);
        SegmentThenRest(images, seg, data[k + m..], segs', signed);
        SegmentsEndInBoundary(segs, signed);
        Cut(data, k, m);
      }
    }
  }

  lemma PicturesMore(images: seq<Image>, seg: Segment, segs: seq<Segment>)
    ensures images + Pictures([seg] + segs) == images + [Picture(seg.content)] + Pictures(segs)
  {
    hide Picture;
    assert ([seg] + segs)[1..] == segs;
  }

  lemma SegmentThenRest(images: seq<Image>, seg: Segment, tail: seq<Octet>, segs: seq<Segment>, signed: bool)
    requires seg.Ok(signed) && Start(images + [Picture(seg.content)]).Live()
    requires Run(Start(images + [Picture(seg.content)]), tail, signed).images
             == images + [Picture(seg.content)] + Pictures(segs)
    ensures Start(images).Live()
    ensures Run(Start(images), seg.header + seg.content + tail, signed).images == images + Pictures([seg] + segs)
  {
    hide *;
    StartLive(images);
    SegmentRun(images, seg, signed);
    PicturesMore(images, seg, segs);
    RunSplit(Start(images), seg.header + seg.content, tail, signed);
  }

  lemma Cut(data: seq<Octet>, k: nat, m: nat)
    requires k + m <= |data|
    ensures data == data[..k] + data[k..k + m] + data[k + m..]
  {}

  lemma {:induction false} ImagesGrow(s: State, data: seq<Octet>, signed: bool)
    requires s.Live()
    ensures s.images <= Run(s, data, signed).images
    decreases |data|
  {
    hide BOUNDARY, CONTENT_LENGTH, LIMIT, EndsWith, PushByte, IsCrlfCrlf, IsCrlf, Next, Picture;
    if data != [] { ImagesGrow(Step(s, data[0], signed), data[1..], signed); }
  }

  lemma FittingFrame(s: State, jpeg: seq<Octet>, signed: bool)
    requires AtContent(s, s.images) && Quiet(jpeg) && |jpeg| + |CRLF| + |BOUNDARY| <= LIMIT
    ensures Run(s, jpeg + CRLF + BOUNDARY, signed).images == s.images + [Image(|jpeg|, jpeg)]
  {
    Patterns();
    FrameContentOk(jpeg);
    hide Run, Feed, ContentOk, EndsWith, LIMIT, BOUNDARY, CRLF, Quiet;
    var c := jpeg + CRLF + BOUNDARY;
    ContentRun(s, c, signed);
    assert s.content + c == c && c[..|jpeg|] == jpeg;
  }

  lemma DisturbedFrame(s: State, jpeg: seq<Octet>, signed: bool)
    requires AtContent(s, s.images) && !Quiet(jpeg)
    ensures Run(s, jpeg + CRLF + BOUNDARY, signed).images != s.images + [Image(|jpeg|, jpeg)]
  {
    Patterns();
    hide Run, Feed, ContentOk, EndsWith, LIMIT, BOUNDARY, CRLF;
    var c := jpeg + CRLF + BOUNDARY;
    var m := FirstMatch(0, jpeg);
    assert jpeg[..m] == c[..m];
    LoudFrame(s, c, m, jpeg, signed);
  }

  /** When the content matches early, the first image is too short, or there is none. */
  lemma LoudFrame(s: State, c: seq<Octet>, m: nat, data: seq<Octet>, signed: bool)
    requires AtContent(s, s.images)
    requires 0 < |BOUNDARY| && m <= |c| - 22 && ContentOk(0, c[..m])
    ensures Run(s, c, signed).images != s.images + [Image(|c| - 22, data)]
  {
    Patterns();
    assert c == c[..m] + c[m..];
    RunSplit(s, c[..m], c[m..], signed);
    if m <= LIMIT {
      ContentRun(s, c[..m], signed);
      assert s.content + c[..m] == c[..m];
      ImagesGrow(Start(s.images + [Picture(c[..m])]), c[m..], signed);
      hide Run;
      assert Run(s, c, signed).images[|s.images|] == Picture(c[..m]);
    } else {
      hide Run;
      LateMatch(c, m);
      SilentContent(s, c, signed);
    }
  }

  /** A frame with CRLF and boundary comes out as one image with just its bytes exactly when it is quiet and fits. */
  lemma FrameReportedIff(s: State, jpeg: seq<Octet>, signed: bool)
    requires AtContent(s, s.images)
    ensures Run(s, jpeg + CRLF + BOUNDARY, signed).images == s.images + [Image(|jpeg|, jpeg)]
            <==> Quiet(jpeg) && |jpeg| + |CRLF| + |BOUNDARY| <= LIMIT
  {
    if Quiet(jpeg) && |jpeg| + |CRLF| + |BOUNDARY| <= LIMIT {
      FittingFrame(s, jpeg, signed);
    } else if Quiet(jpeg) {
      var c := jpeg + CRLF + BOUNDARY;
      hide *;
      LongFrameIsLost(s, jpeg, [], signed);
      assert c + [] == c;
    } else {
      DisturbedFrame(s, jpeg, signed);
    }
  }
}
