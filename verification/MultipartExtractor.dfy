/** `struct extractor_state` and the methods that move it on. */
module MultipartExtractor {
  import opened SearchPatterns
  import opened MultipartStream

  class SearchPattern {
    const str: seq<Octet>
    var current: nat

    constructor (str: seq<Octet>)
      ensures this.str == str && current == 0
    {
      this.str := str;
      current := 0;
    }

    method Reset()
      modifies this
      ensures current == 0
    {
      current := 0;
    }

    method Compare(c: Octet) returns (same: bool)
      requires current < |str|
      modifies this
      ensures current == Next(str, old(current), c) && same == (current != 0)
    {
      if str[current] == c {
        current := current + 1;
        same := true;
      } else {
        Reset();
        same := false;
      }
    }

    method Matches() returns (all: bool)
      ensures all == (current == |str|)
    {
      all := current == |str|;
    }
  }

  class Extractor {
    const signed: bool
    const buffer: array<Octet>
    const contentLength: SearchPattern
    const boundary: SearchPattern
    var length: int
    var part: Part
    var lastFour: bv32
    /** What the callback has been called with. */
    var received: seq<Image>

    ghost predicate Shape()
      reads this
    {
      && buffer.Length == BUFFER_SIZE
      && contentLength.str == CONTENT_LENGTH && boundary.str == BOUNDARY && contentLength != boundary
    }

    ghost function Now(): State
      requires Shape() && 0 <= length <= BUFFER_SIZE
      reads this, buffer, contentLength, boundary
    {
      State(part, lastFour, contentLength.current, boundary.current, buffer[..length], received)
    }

    ghost predicate Valid()
      reads this, buffer, contentLength, boundary
    {
      Shape() && 0 <= length <= BUFFER_SIZE && Now().Live()
    }

    constructor (signed: bool)
      ensures Valid() && Now() == Start([]) && this.signed == signed
      ensures fresh(buffer) && fresh(contentLength) && fresh(boundary)
    {
      this.signed := signed;
      buffer := new Octet[BUFFER_SIZE];
      contentLength := new SearchPattern(CONTENT_LENGTH);
      boundary := new SearchPattern(BOUNDARY);
      length, part, lastFour, received := 0, HEADER, 0, [];
      new;
      StartLive([]);
    }

    /** `init_extractor_state`; what was received stays received. */
    method Init()
      requires Shape()
      modifies this, contentLength, boundary
      ensures Valid() && Now() == Start(old(received))
    {
      length := 0;
      part := HEADER;
      lastFour := 0;
      contentLength.Reset();
      boundary.Reset();
      StartLive(received);
      assert buffer[..length] == [];
    }

    lemma Open()
      requires Valid()
      ensures Shape() && length <= BUFFER_SIZE
      ensures buffer.Length == 262144 && 0 <= length <= 262143
      ensures contentLength != boundary && contentLength.str == CONTENT_LENGTH && boundary.str == BOUNDARY
      ensures contentLength.current < |CONTENT_LENGTH| && boundary.current < |BOUNDARY|
      ensures Now().Live()
      ensures Now() == State(part, lastFour, contentLength.current, boundary.current, buffer[..length], received)
    {
      hide EndsWith, CONTENT_LENGTH, BOUNDARY;
    }

    lemma Close(s: State)
      requires buffer.Length == 262144 && 0 <= length <= 262143
      requires contentLength != boundary && contentLength.str == CONTENT_LENGTH && boundary.str == BOUNDARY
      requires s.Live()
      requires s == State(part, lastFour, contentLength.current, boundary.current, buffer[..length], received)
      ensures Valid() && Now() == s
    {
      hide EndsWith, CONTENT_LENGTH, BOUNDARY, State.Live;
    }

    lemma ShapeFromParts()
      requires buffer.Length == 262144
      requires contentLength != boundary && contentLength.str == CONTENT_LENGTH && boundary.str == BOUNDARY
      ensures Shape()
    {
      hide CONTENT_LENGTH, BOUNDARY;
    }

    method HeaderByte(c: Octet)
      requires Valid() && part == HEADER
      modifies this, contentLength
      ensures Valid() && Now() == HeaderStep(old(Now()), c, signed)
    {
      hide *;
      Open();
      ghost var s := Now();
      HeaderStepLive(s, c, signed);
      HeaderStepIs(s, c, signed);
      lastFour := PushByte(lastFour, c, signed);
      if IsCrlfCrlf(lastFour) {
        part := CONTENT;
      } else if IsCrlf(lastFour) {
        contentLength.Reset();
      } else {
        var _ := contentLength.Compare(c);
        var found := contentLength.Matches();
        if found {
          contentLength.Reset();
        }
      }
      Close(HeaderStep(s, c, signed));
    }

    method ContentByte(c: Octet)
      requires Valid() && part == CONTENT
      modifies this, buffer, contentLength, boundary
      ensures Valid() && Now() == ContentStep(old(Now()), c)
    {
      hide *;
      Open();
      ghost var s := Now();
      ContentStepLive(s, c);
      ContentStepIs(s, c);
      LimitBelowSize();
      if length >= LIMIT {
        return;
      }
      buffer[length] := c;
      length := length + 1;
      assert buffer[..length] == s.content + [c];
      var _ := boundary.Compare(c);
      var found := boundary.Matches();
      if found {
        Patterns();
        ghost var content := buffer[..length];
        length := length - (|boundary.str| + 2);
        PictureIs(content, length);
        assert length >= 0 ==> content[..length] == buffer[..length];
        received := received + [Image(length, if length < 0 then [] else buffer[..length])];
        ShapeFromParts();
        Init();
      } else {
        Close(ContentStep(s, c));
      }
    }

    /** `extract_data`; should_stop is read before every byte, and the first non-zero reading ends the loop. */
    method ExtractData(data: seq<Octet>, shouldStop: seq<bool>)
      requires Valid() && |shouldStop| == |data|
      modifies this, buffer, contentLength, boundary
      ensures Valid() && Now() == Run(old(Now()), Handled(data, shouldStop), signed)
    {
      hide *;
      Open();
      ghost var s := Now();
      var i := 0;
      NothingYet(s, data, signed);
      while i < |data| && !shouldStop[i]
        invariant i <= |data| && Valid() && Shape() && 0 <= length <= BUFFER_SIZE
        invariant forall k :: 0 <= k < i ==> !shouldStop[k]
        invariant Now() == Run(s, data[..i], signed)
      {
        Open();
        StepNext(s, data, i, signed);
        StepIs(Now(), data[i], signed);
        if part == HEADER {
          HeaderByte(data[i]);
        } else {
          ContentByte(data[i]);
        }
        Open();
        i := i + 1;
      }
      HandledIs(data, shouldStop, i);
    }

    /** The receiving loop of `send_request_and_process_response`, on what `recv` delivers until it fails. */
    method ProcessResponse(rs: seq<Reception>)
      requires Shape() && Readings(rs)
      modifies this, buffer, contentLength, boundary
      ensures Valid() && Now() == Run(Fresh(old(received)), Taken(rs), signed)
    {
      hide Run, Extractor.Shape, Extractor.Now, State.Live, Handled, Start, Fresh;
      Init();
      FreshStart(received);
      ghost var s := Now();
      var k := 0;
      assert rs[0..] == rs;
      while k < |rs| && !rs[k].stopped
        invariant k <= |rs| && Valid()
        invariant Run(s, Taken(rs), signed) == Run(Now(), Taken(rs[k..]), signed)
      {
        RunSplit(Now(), Handled(rs[k].data, rs[k].stops), Taken(rs[k + 1..]), signed);
        assert rs[k..][1..] == rs[k + 1..];
        ExtractData(rs[k].data, rs[k].stops);
        k := k + 1;
      }
      RunNothing(Now(), signed);
    }
  }

  /** A successful `recv`: the reading of should_stop after it, the data, and the readings before each byte. */
  datatype Reception = Reception(stopped: bool, data: seq<Octet>, stops: seq<bool>)

  predicate Readings(rs: seq<Reception>) {
    forall i :: 0 <= i < |rs| ==> |rs[i].stops| == |rs[i].data|
  }

  /** What is sent. */
  function Sent(rs: seq<Reception>): seq<Octet> {
    if rs == [] then [] else rs[0].data + Sent(rs[1..])
  }

  /** What is handled of it. */
  function Taken(rs: seq<Reception>): seq<Octet>
    requires Readings(rs)
  {
    if rs == [] || rs[0].stopped then [] else Handled(rs[0].data, rs[0].stops) + Taken(rs[1..])
  }

  predicate Stopping(r: Reception) {
    r.stopped || true in r.stops
  }

  /** Once set, should_stop stays set. */
  predicate StopStays(rs: seq<Reception>) {
    forall i, j :: 0 <= i < j < |rs| && Stopping(rs[i]) ==> rs[j].stopped
  }

  predicate Undisturbed(rs: seq<Reception>) {
    forall i :: 0 <= i < |rs| ==> !Stopping(rs[i])
  }

  /** The front of what is sent is handled, and all of it while nobody wants to stop. */
  lemma {:induction false} TakenFront(rs: seq<Reception>)
    requires Readings(rs) && StopStays(rs)
    ensures Taken(rs) <= Sent(rs)
    ensures Undisturbed(rs) ==> Taken(rs) == Sent(rs)
  {
    hide Handled;
    if rs != [] && !rs[0].stopped {
      TakenFront(rs[1..]);
      if true in rs[0].stops {
        assert Stopping(rs[0]) && Taken(rs[1..]) == [];
      } else {
        HandledIs(rs[0].data, rs[0].stops, |rs[0].data|);
        assert Undisturbed(rs) ==> Undisturbed(rs[1..]);
      }
    }
  }

  function Fresh(images: seq<Image>): (s: State)
    ensures s == Start(images) && s.Live()
  {
    StartLive(images);
    Start(images)
  }

  lemma FreshStart(images: seq<Image>)
    ensures Fresh(images) == Start(images)
  {}

  /** The bytes before the first non-zero reading of should_stop. */
  function Handled(data: seq<Octet>, shouldStop: seq<bool>): (d: seq<Octet>)
    requires |shouldStop| == |data|
    ensures d <= data
  {
    if data == [] || shouldStop[0] then [] else [data[0]] + Handled(data[1..], shouldStop[1..])
  }

  lemma {:induction false} HandledIs(data: seq<Octet>, shouldStop: seq<bool>, i: nat)
    requires |shouldStop| == |data| && i <= |data|
    requires forall k :: 0 <= k < i ==> !shouldStop[k]
    requires i < |data| ==> shouldStop[i]
    ensures Handled(data, shouldStop) == data[..i]
  {
    if i > 0 {
      assert data[..i] == [data[0]] + data[1..][..i - 1];
      HandledIs(data[1..], shouldStop[1..], i - 1);
    }
  }

  lemma NothingYet(s: State, data: seq<Octet>, signed: bool)
    requires s.Live()
    ensures Run(s, data[..0], signed) == s
  {
    assert data[..0] == [];
  }

  lemma RunNothing(s: State, signed: bool)
    requires s.Live()
    ensures Run(s, [], signed) == s
  {}

  lemma StepNext(s: State, data: seq<Octet>, i: nat, signed: bool)
    requires s.Live() && i < |data|
    ensures Run(s, data[..i + 1], signed) == Step(Run(s, data[..i], signed), data[i], signed)
  {
    hide Step, State.Live;
    assert data[..i + 1] == data[..i] + [data[i]];
    RunSplit(s, data[..i], [data[i]], signed);
    assert [data[i]][1..] == [];
  }

  lemma StepIs(s: State, c: Octet, signed: bool)
    requires s.Live()
    ensures Step(s, c, signed) == if s.part == HEADER then HeaderStep(s, c, signed) else ContentStep(s, c)
  {
    hide HeaderStep, ContentStep, State.Live;
  }

  lemma HeaderStepIs(s: State, c: Octet, signed: bool)
    requires s.Live()
    ensures s.contentLength < |CONTENT_LENGTH|
    ensures var w := PushByte(s.lastFour, c, signed);
            var n := Next(CONTENT_LENGTH, s.contentLength, c);
            HeaderStep(s, c, signed) ==
              if IsCrlfCrlf(w) then s.(part := CONTENT, lastFour := w)
              else if IsCrlf(w) then s.(lastFour := w, contentLength := 0)
              else s.(lastFour := w, contentLength := if n == |CONTENT_LENGTH| then 0 else n)
  {}

  lemma ContentStepIs(s: State, c: Octet)
    requires s.Live()
    ensures s.boundary < |BOUNDARY|
    ensures var n := Next(BOUNDARY, s.boundary, c);
            ContentStep(s, c) ==
              if |s.content| >= LIMIT then s
              else if n == |BOUNDARY| then Start(s.images + [Picture(s.content + [c])])
              else s.(content := s.content + [c], boundary := n)
  {
    hide Picture, Start;
  }

  lemma PictureIs(content: seq<Octet>, length: int)
    requires length == |content| - 22
    ensures Picture(content) == Image(length, if length < 0 then [] else content[..length])
  {}

  lemma LimitBelowSize()
    ensures LIMIT == 262143 && BUFFER_SIZE == 262144
  {}

  /** The images of the front of a stream are the first images of the stream. */
  lemma FrontImages(s: State, front: seq<Octet>, all: seq<Octet>, signed: bool)
    requires s.Live() && front <= all
    ensures s.images <= Run(s, front, signed).images <= Run(s, all, signed).images
  {
    hide State.Live, Run;
    assert all == front + all[|front|..];
    RunSplit(s, front, all[|front|..], signed);
    ImagesGrow(s, front, signed);
    ImagesGrow(Run(s, front, signed), all[|front|..], signed);
  }

  /**
    The extractor reports exactly the frames that were sent, however the bytes are spread over the calls
    and whatever it was doing before the request; when it is told to stop, it has reported the first of them.
   */
  method ReceiveFrames(e: Extractor, rs: seq<Reception>, ghost frames: seq<Frame>)
    requires e.Shape() && Readings(rs) && StopStays(rs)
    requires forall i :: 0 <= i < |frames| ==> frames[i].Ok(e.signed)
    requires Sent(rs) == Stream(frames)
    modifies e, e.buffer, e.contentLength, e.boundary
    ensures e.Valid() && old(e.received) <= e.received <= old(e.received) + Jpegs(frames)
    ensures Undisturbed(rs) ==> e.received == old(e.received) + Jpegs(frames)
  {
    hide *;
    ghost var before := e.received;
    StreamRoundTrip(before, frames, e.signed);
    TakenFront(rs);
    FreshStart(before);
    FrontImages(Start(before), Taken(rs), Sent(rs), e.signed);
    StartImages(before);
    StartImages(before + Jpegs(frames));
    e.ProcessResponse(rs);
    e.Open();
  }

  lemma StartImages(images: seq<Image>)
    ensures Start(images).images == images
  {}
}
