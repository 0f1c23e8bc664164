/**
  Reading the Pushover configuration: three calls of fscanf, as section 7.21.6.2 of C11 describes it, over and over.
 */
module PushoverConfig {

  const MAX_CONF_STR_LEN := 160
  const MAX_URL_LEN := 2083
  const EOF := -1

  predicate IsSpace(c: char) {
    c == ' ' || c == '\t' || c == '\n' || c == '\r' || c == '\U{B}' || c == '\U{C}'
  }

  predicate Blank(s: string) {
    forall i :: 0 <= i < |s| ==> IsSpace(s[i])
  }

  predicate Solid(s: string) {
    forall i :: 0 <= i < |s| ==> !IsSpace(s[i])
  }

  datatype Tag = SERVER_URL | TOKEN_ID | USER_ID {
    function Text(): string {
      match this
      case SERVER_URL => "server_url="
      case TOKEN_ID => "token="
      case USER_ID => "user="
    }

    /** How many characters are stored at most. */
    function Limit(): nat {
      if this == SERVER_URL then MAX_URL_LEN else MAX_CONF_STR_LEN
    }
  }

  // ----- one call of fscanf, on what is left of the file -----

  /** A white-space directive. */
  function SkipSpace(s: string): (r: string)
    ensures |r| <= |s|
    ensures r != "" ==> !IsSpace(r[0])
  {
    if s != "" && IsSpace(s[0]) then SkipSpace(s[1..]) else s
  }

  /** An ordinary character directive for each character of a literal: how many match. */
  function Matched(s: string, lit: string): (n: nat)
    ensures n <= |s| && n <= |lit|
  {
    if s == "" || lit == "" || s[0] != lit[0] then 0 else 1 + Matched(s[1..], lit[1..])
  }

  /** The directive for a word of at most `width` characters. */
  function Word(s: string, width: nat): (n: nat)
    ensures n <= |s| && n <= width
  {
    if width == 0 || s == "" || IsSpace(s[0]) then 0 else 1 + Word(s[1..], width - 1)
  }

  /** The answer of fscanf, the word it stored, what is left, and whether the end of the file was seen. */
  datatype Scan = Scan(ret: int, word: string, rest: string, eof: bool)

  /** fscanf with the format `" " tag " %<limit>s\n"`. */
  function ScanTag(s: string, tag: Tag): (r: Scan)
    ensures |r.rest| <= |s|
    ensures r.ret == 1 ==> |r.rest| < |s|
    ensures r.ret == EOF ==> r.eof
    ensures r.ret == 0 ==> !r.eof
    ensures r.ret == 1 || r.ret == 0 || r.ret == EOF
  {
    var a := SkipSpace(s);
    var n := Matched(a, tag.Text());
    if n < |tag.Text()| then
      if n == |a| then Scan(EOF, "", "", true) else Scan(0, "", a[n..], false)
    else
      var b := SkipSpace(a[n..]);
      if b == "" then Scan(EOF, "", "", true)
      else
        var k := Word(b, tag.Limit());
        assert k > 0;
        var rest := SkipSpace(b[k..]);
        Scan(1, b[..k], rest, rest == "")
  }

  // ----- the loop -----

  datatype Values = Values(server: string, token: string, user: string) {
    function With(tag: Tag, word: string): Values {
      match tag
      case SERVER_URL => this.(server := word)
      case TOKEN_ID => this.(token := word)
      case USER_ID => this.(user := word)
    }
  }

  datatype Loaded = Loaded(ok: bool, values: Values)

  function Store(v: Values, tag: Tag, scan: Scan): Values {
    if scan.ret == 1 then v.With(tag, scan.word) else v
  }

  datatype Hit = Hit(tag: Tag, scan: Scan)

  /** One turn: the first of the three calls that does not answer 0, and which it was. */
  function ScanAny(s: string): (h: Hit)
    ensures h.scan.ret != 0 && !h.scan.eof ==> |h.scan.rest| < |s|
  {
    var a := ScanTag(s, SERVER_URL);
    if a.ret != 0 then Hit(SERVER_URL, a)
    else
      var b := ScanTag(a.rest, TOKEN_ID);
      if b.ret != 0 then Hit(TOKEN_ID, b) else Hit(USER_ID, ScanTag(b.rest, USER_ID))
  }

  /** What the loop reads from s, when the end of the file has not been seen yet. */
  function Load(s: string, v: Values): Loaded
    decreases |s|
  {
    var h := ScanAny(s);
    if h.scan.ret == 0 then Loaded(false, v)
    else if h.scan.eof then Loaded(true, Store(v, h.tag, h.scan))
    else Load(h.scan.rest, Store(v, h.tag, h.scan))
  }

  // ----- files as they are written -----

  /** A variable with the white space around it. */
  datatype Line = Line(lead: string, tag: Tag, gap: string, value: string, trail: string) {
    predicate Ok() {
      Blank(lead) && Blank(gap) && Blank(trail) && Solid(value) && 0 < |value| <= tag.Limit()
    }

    function Body(): string {
      tag.Text() + gap + value + trail
    }
  }

  /** Lines of which all but the last end in white space. */
  predicate LinesOk(lines: seq<Line>) {
    forall i :: 0 <= i < |lines| ==> lines[i].Ok() && (i + 1 < |lines| ==> lines[i].trail != "")
  }

  function Print(lines: seq<Line>): string {
    if lines == [] then "" else lines[0].lead + lines[0].Body() + Print(lines[1..])
  }

  /** The last value printed for each tag. */
  function LastValues(lines: seq<Line>, v: Values): Values {
    if lines == [] then v else LastValues(lines[1..], v.With(lines[0].tag, lines[0].value))
  }

  // ----- reading back -----

  lemma {:induction false} SkipBlank(blank: string, s: string)
    requires Blank(blank)
    ensures SkipSpace(blank + s) == SkipSpace(s)
    decreases |blank|
  {
    if blank == "" {
      assert blank + s == s;
    } else {
      assert (blank + s)[1..] == blank[1..] + s;
      SkipBlank(blank[1..], s);
    }
  }

  lemma SkipNothing(s: string)
    requires s == "" || !IsSpace(s[0])
    ensures SkipSpace(s) == s
  {}

  lemma {:induction false} MatchAll(lit: string, s: string)
    ensures Matched(lit + s, lit) == |lit|
    decreases |lit|
  {
    if lit != "" {
      assert (lit + s)[1..] == lit[1..] + s;
      MatchAll(lit[1..], s);
    }
  }

  lemma {:induction false} WordAll(value: string, s: string, width: nat)
    requires Solid(value) && |value| <= width && (s == "" || |value| == width || IsSpace(s[0]))
    ensures Word(value + s, width) == |value|
    decreases |value|
  {
    if value != "" {
      assert (value + s)[1..] == value[1..] + s;
      WordAll(value[1..], s, width - 1);
    } else {
      assert value + s == s;
    }
  }

  lemma FirstLetters(tag: Tag, other: Tag)
    ensures |tag.Text()| > 0 && !IsSpace(tag.Text()[0])
    ensures tag != other ==> tag.Text()[0] != other.Text()[0]
  {}

  lemma ScanSucceeds(s: string, tag: Tag, after: string, tail: string, k: nat)
    requires SkipSpace(s) == tag.Text() + after && SkipSpace(after) == tail
    requires tail != "" && k == Word(tail, tag.Limit())
    ensures var rest := SkipSpace(tail[k..]);
            ScanTag(s, tag) == Scan(1, tail[..k], rest, rest == "")
  {
    MatchAll(tag.Text(), after);
    assert (tag.Text() + after)[|tag.Text()|..] == after;
    hide Tag.Text, Tag.Limit, SkipSpace, Matched, Word, IsSpace;
  }

  lemma {:induction false} WordCut(word: string, width: nat)
    requires Solid(word)
    ensures Word(word, width) == if |word| < width then |word| else width
    decreases |word|
  {
    if word != "" && width > 0 { WordCut(word[1..], width - 1); }
  }

  /** A value that is too long is cut off: at 2083 characters for the URL, and at 160 for the others. */
  lemma LongValueIsCut(tag: Tag, word: string)
    requires word != "" && Solid(word)
    ensures var limit := if tag == SERVER_URL then 2083 else 160;
            var n := if |word| < limit then |word| else limit;
            ScanTag(tag.Text() + word, tag) == Scan(1, word[..n], word[n..], n == |word|)
  {
    FirstLetters(tag, tag);
    SkipNothing(tag.Text() + word);
    SkipNothing(word);
    WordCut(word, tag.Limit());
    var k := Word(word, tag.Limit());
    ScanSucceeds(tag.Text() + word, tag, word, word, k);
    SkipNothing(word[k..]);
  }

  /** The call for another tag reads nothing but white space. */
  lemma ScanOtherTag(s: string, tag: Tag, other: Tag)
    requires tag != other && SkipSpace(s) != "" && SkipSpace(s)[0] == tag.Text()[0]
    ensures ScanTag(s, other) == Scan(0, "", SkipSpace(s), false)
  {
    var a := SkipSpace(s);
    assert a[0..] == a;
  }

  lemma LineParts(line: Line, more: string)
    requires line.Ok() && (line.trail != "" || more == "")
    ensures var tail := line.value + (line.trail + more);
            && line.Body() + more == line.tag.Text() + (line.gap + tail)
            && tail != "" && !IsSpace(tail[0])
            && tail[..|line.value|] == line.value && tail[|line.value|..] == line.trail + more
            && (line.trail + more == "" || IsSpace((line.trail + more)[0]))
            && Blank(line.gap) && Blank(line.trail) && Solid(line.value) && |line.value| <= line.tag.Limit()
  {
    hide Tag.Text, Tag.Limit, IsSpace;
  }

  /** The call for the right tag reads the value and the white space around it. */
  lemma ScanThisTag(s: string, line: Line, more: string)
    requires line.Ok() && SkipSpace(s) == line.Body() + more && (line.trail != "" || more == "")
    ensures var rest := SkipSpace(more);
            ScanTag(s, line.tag) == Scan(1, line.value, rest, rest == "")
  {
    hide *;
    var tail := line.value + (line.trail + more);
    LineParts(line, more);
    SkipBlank(line.gap, tail);
    SkipNothing(tail);
    WordAll(line.value, line.trail + more, line.tag.Limit());
    SkipBlank(line.trail, more);
    ScanSucceeds(s, line.tag, line.gap + tail, tail, |line.value|);
  }

  lemma ScanAnyLine(s: string, line: Line, more: string)
    requires line.Ok() && SkipSpace(s) == line.Body() + more && (line.trail != "" || more == "")
    ensures var rest := SkipSpace(more);
            ScanAny(s) == Hit(line.tag, Scan(1, line.value, rest, rest == ""))
  {
    var a := SkipSpace(s);
    FirstLetters(line.tag, line.tag);
    SkipNothing(a);
    assert a[0] == line.tag.Text()[0];
    ScanThisTag(s, line, more);
    ScanThisTag(a, line, more);
    if line.tag != SERVER_URL {
      ScanOtherTag(s, line.tag, SERVER_URL);
      if line.tag != TOKEN_ID { ScanOtherTag(a, line.tag, TOKEN_ID); }
    }
  }

  lemma FirstLine(lines: seq<Line>)
    requires LinesOk(lines) && lines != []
    ensures var line, more := lines[0], Print(lines[1..]);
            && line.Ok() && SkipSpace(Print(lines)) == line.Body() + more && line.Body() + more != ""
            && (line.trail != "" || more == "") && LinesOk(lines[1..])
  {
    var line, more := lines[0], Print(lines[1..]);
    FirstLetters(line.tag, line.tag);
    hide Tag.Text, IsSpace, SkipSpace, Tag.Limit;
    assert Print(lines) == line.lead + (line.Body() + more);
    SkipBlank(line.lead, line.Body() + more);
    SkipNothing(line.Body() + more);
    if |lines| > 1 { assert lines[0 + 1] == lines[1..][0]; }
  }

  lemma LoadStep(s: string, v: Values, tag: Tag, scan: Scan)
    requires ScanAny(s) == Hit(tag, scan) && scan.ret == 1
    ensures !scan.eof ==> |scan.rest| < |s|
    ensures Load(s, v) ==
            if scan.eof then Loaded(true, v.With(tag, scan.word)) else Load(scan.rest, v.With(tag, scan.word))
  {
    hide ScanAny, ScanTag, Values.With;
  }

  lemma LastValuesStep(lines: seq<Line>, v: Values)
    requires lines != []
    ensures LastValues(lines, v) == LastValues(lines[1..], v.With(lines[0].tag, lines[0].value))
  {}

  lemma LastValuesNone(v: Values)
    ensures LastValues([], v) == v
  {}

  lemma SkipTwice(s: string)
    ensures SkipSpace(SkipSpace(s)) == SkipSpace(s)
  {
    SkipNothing(SkipSpace(s));
  }

  /** Whatever is printed is read back: every variable holds the last value printed for its tag. */
  lemma {:induction false} LoadPrinted(s: string, lines: seq<Line>, v: Values)
    requires LinesOk(lines) && SkipSpace(s) == SkipSpace(Print(lines))
    ensures Load(s, v) == Loaded(true, LastValues(lines, v))
    decreases |lines|
  {
    hide *;
    if lines == [] {
      PrintNothing();
      LoadEmpty(s, v);
      LastValuesNone(v);
    } else {
      FirstLine(lines);
      var line, more := lines[0], Print(lines[1..]);
      ScanAnyLine(s, line, more);
      var rest := SkipSpace(more);
      LoadStep(s, v, line.tag, Scan(1, line.value, rest, rest == ""));
      LastValuesStep(lines, v);
      if rest == "" {
        NothingMore(lines[1..]);
        LastValuesNone(v.With(line.tag, line.value));
      } else {
        SkipTwice(more);
        LoadPrinted(rest, lines[1..], v.With(line.tag, line.value));
      }
    }
  }

  lemma PrintNothing()
    ensures SkipSpace(Print([])) == ""
  {}

  lemma LoadEmpty(s: string, v: Values)
    requires SkipSpace(s) == ""
    ensures Load(s, v) == Loaded(true, v)
  {
    assert ScanTag(s, SERVER_URL) == Scan(EOF, "", "", true);
  }

  lemma NothingMore(lines: seq<Line>)
    requires LinesOk(lines) && SkipSpace(Print(lines)) == ""
    ensures lines == []
  {
    hide *;
    if lines != [] {
      FirstLine(lines);
    }
  }

  /** The configuration round trip, with arbitrary white space, in any order, with or without a final newline. */
  lemma PrintedFileRoundTrip(lines: seq<Line>)
    requires LinesOk(lines)
    ensures Load(Print(lines), Values("", "", "")) == Loaded(true, LastValues(lines, Values("", "", "")))
  {
    LoadPrinted(Print(lines), lines, Values("", "", ""));
  }

  /** Only of the six characters that isspace knows. */
  predicate Spaces(s: string) {
    forall i :: 0 <= i < |s| ==> s[i] in " \t\n\r\U{B}\U{C}"
  }

  /** Without any of them. */
  predicate NoSpaces(s: string) {
    forall i :: 0 <= i < |s| ==> s[i] !in " \t\n\r\U{B}\U{C}"
  }

  lemma SpacesAreBlank(s: string)
    ensures Spaces(s) <==> Blank(s)
    ensures NoSpaces(s) <==> Solid(s)
  {
    forall i | 0 <= i < |s| ensures IsSpace(s[i]) <==> s[i] in " \t\n\r\U{B}\U{C}" { SixSpaces(s[i]); }
  }

  lemma SixSpaces(c: char)
    ensures IsSpace(c) <==> c in " \t\n\r\U{B}\U{C}"
  {
    var six := " \t\n\r\U{B}\U{C}";
    assert six[0] == ' ' && six[1] == '\t' && six[2] == '\n';
    assert six[3] == '\r' && six[4] == '\U{B}' && six[5] == '\U{C}';
  }

  /** A file of three variables, spelled out: each gets what stands behind its own name. */
  lemma ThreeLines(url: string, token: string, user: string, s: string, t: string)
    requires NoSpaces(url) && NoSpaces(token) && NoSpaces(user) && Spaces(s) && Spaces(t) && s != "" && t != ""
    requires 0 < |url| <= 2083 && 0 < |token| <= 160 && 0 < |user| <= 160
    ensures Load("server_url=" + url + s + "token=" + token + t + "user=" + user, Values("", "", "")) ==
            Loaded(true, Values(url, token, user))
  {
    SpacesAreBlank(url);
    SpacesAreBlank(token);
    SpacesAreBlank(user);
    SpacesAreBlank(s);
    SpacesAreBlank(t);
    var a, b := Line("", SERVER_URL, "", url, s), Line("", TOKEN_ID, "", token, t);
    var c := Line("", USER_ID, "", user, "");
    LineText(a);
    LineText(b);
    LineText(c);
    ThreeOk(a, b, c);
    hide *;
    PrintedFileRoundTrip([a, b, c]);
    LastOfThree(a, b, c);
    PrintThree(a, b, c);
    ThreeTexts("server_url=" + url + s, "token=", token, t, "user=", user);
  }

  /** A line without white space before it or behind its name. */
  lemma LineText(line: Line)
    requires line.lead == "" && line.gap == ""
    ensures line.lead + line.Body() ==
            (match line.tag case SERVER_URL => "server_url=" case TOKEN_ID => "token=" case USER_ID => "user=")
            + line.value + line.trail
  {
    var text := line.tag.Text();
    assert text + "" == text && "" + line.Body() == line.Body();
  }

  lemma ThreeOk(a: Line, b: Line, c: Line)
    requires a.Ok() && b.Ok() && c.Ok() && a.trail != "" && b.trail != ""
    ensures LinesOk([a, b, c])
  {
    hide Line.Ok;
  }

  lemma ThreeTexts(a: string, b: string, token: string, t: string, c: string, user: string)
    ensures a + (b + token + t + (c + user + "")) == a + b + token + t + c + user
  {
    assert c + user + "" == c + user;
  }

  lemma PrintOne(line: Line)
    ensures Print([line]) == line.lead + line.Body()
  {
    assert [line][1..] == [];
    assert line.lead + line.Body() + "" == line.lead + line.Body();
  }

  lemma PrintMore(line: Line, lines: seq<Line>)
    ensures Print([line] + lines) == line.lead + line.Body() + Print(lines)
  {
    assert ([line] + lines)[1..] == lines;
  }

  lemma PrintThree(a: Line, b: Line, c: Line)
    ensures Print([a, b, c]) == a.lead + a.Body() + (b.lead + b.Body() + (c.lead + c.Body()))
  {
    hide *;
    PrintOne(c);
    PrintMore(b, [c]);
    PrintMore(a, [b] + [c]);
    assert [a] + ([b] + [c]) == [a, b, c];
  }

  lemma LastOfThree(a: Line, b: Line, c: Line)
    requires a.tag == SERVER_URL && b.tag == TOKEN_ID && c.tag == USER_ID
    ensures LastValues([a, b, c], Values("", "", "")) == Values(a.value, b.value, c.value)
  {
    var v := Values("", "", "");
    LastValuesStep([a, b, c], v);
    LastValuesStep([b, c], v.With(SERVER_URL, a.value));
    LastValuesStep([c], v.With(SERVER_URL, a.value).With(TOKEN_ID, b.value));
    hide LastValues;
    assert [a, b, c][1..] == [b, c] && [b, c][1..] == [c] && [c][1..] == [];
    LastValuesNone(Values(a.value, b.value, c.value));
  }

  // ----- the reading loop -----

  lemma SkipStep(text: string, p: nat)
    requires p <= |text|
    ensures SkipSpace(text[p..]) == if p < |text| && IsSpace(text[p]) then SkipSpace(text[p + 1..]) else text[p..]
  {
    if p < |text| { assert text[p..][1..] == text[p + 1..]; }
  }

  lemma MatchStep(text: string, p: nat, lit: string, n: nat)
    requires p <= |text| && n <= |lit|
    ensures Matched(text[p..], lit[n..]) ==
            if p < |text| && n < |lit| && text[p] == lit[n] then 1 + Matched(text[p + 1..], lit[n + 1..]) else 0
  {
    if p < |text| && n < |lit| { assert text[p..][1..] == text[p + 1..] && lit[n..][1..] == lit[n + 1..]; }
  }

  lemma WordStep(text: string, p: nat, width: nat)
    requires p <= |text|
    ensures Word(text[p..], width) ==
            if width > 0 && p < |text| && !IsSpace(text[p]) then 1 + Word(text[p + 1..], width - 1) else 0
  {
    if p < |text| { assert text[p..][1..] == text[p + 1..]; }
  }

  /** The open file, and the strings that the loop fills. */
  class Config {
    const text: string
    var pos: nat
    var eof: bool
    var values: Values

    ghost predicate Valid()
      reads `pos
    {
      pos <= |text|
    }

    ghost function Rest(): string
      requires Valid()
      reads `pos
    {
      text[pos..]
    }

    constructor (text: string)
      ensures Valid() && this.text == text && Rest() == text && !eof && values == Values("", "", "")
    {
      this.text := text;
      pos, eof, values := 0, false, Values("", "", "");
    }

    /** Reads white space; trying to read past the end sets the end-of-file flag. */
    method SkipSpaces()
      requires Valid()
      modifies `pos, `eof
      ensures Valid() && Rest() == SkipSpace(old(Rest())) && eof == (old(eof) || Rest() == "")
    {
      hide SkipSpace, IsSpace;
      ghost var start := pos;
      SkipStep(text, pos);
      while pos < |text| && IsSpace(text[pos])
        invariant pos <= |text| && eof == old(eof)
        invariant SkipSpace(text[pos..]) == SkipSpace(text[start..])
        decreases |text| - pos
      {
        SkipStep(text, pos);
        pos := pos + 1;
      }
      SkipStep(text, pos);
      eof := eof || pos == |text|;
    }

    /** Reads the literal; answers how much of it was there. */
    method MatchLiteral(lit: string) returns (n: nat)
      requires Valid()
      modifies `pos, `eof
      ensures Valid() && n == Matched(old(Rest()), lit) && Rest() == old(Rest())[n..]
      ensures eof == (old(eof) || (n < |lit| && Rest() == ""))
    {
      hide Matched;
      n := 0;
      ghost var start := pos;
      assert lit[0..] == lit;
      while n < |lit| && pos < |text| && text[pos] == lit[n]
        invariant n <= |lit| && pos == start + n <= |text| && eof == old(eof)
        invariant Matched(text[start..], lit) == n + Matched(text[pos..], lit[n..])
        decreases |lit| - n
      {
        MatchStep(text, pos, lit, n);
        pos, n := pos + 1, n + 1;
      }
      MatchStep(text, pos, lit, n);
      eof := eof || (n < |lit| && pos == |text|);
    }

    method ReadWord(width: nat) returns (word: string)
      requires Valid()
      modifies `pos, `eof
      ensures Valid() && word == old(Rest())[..Word(old(Rest()), width)] && Rest() == old(Rest())[|word|..]
      ensures old(eof) ==> eof
      ensures eof && !old(eof) ==> Rest() == ""
    {
      hide Word, IsSpace;
      word := "";
      ghost var start := pos;
      while |word| < width && pos < |text| && !IsSpace(text[pos])
        invariant |word| <= width && pos == start + |word| <= |text| && word == text[start..pos] && eof == old(eof)
        invariant Word(text[start..], width) == |word| + Word(text[pos..], width - |word|)
        decreases |text| - pos
      {
        WordStep(text, pos, width - |word|);
        word := word + [text[pos]];
        pos := pos + 1;
      }
      WordStep(text, pos, width - |word|);
      eof := eof || (|word| < width && pos == |text|);
    }

    /** One fscanf call; the word is stored when the answer is 1. */
    method Fscanf(tag: Tag) returns (ret: int)
      requires Valid() && !eof
      modifies this
      ensures Valid()
      ensures var scan := ScanTag(old(Rest()), tag);
              && ret == scan.ret && eof == scan.eof && (!eof ==> Rest() == scan.rest)
              && values == Store(old(values), tag, scan)
    {
      hide *;
      RestIs();
      ghost var s := text[pos..];
      StoreCases(values, tag, ScanTag(s, tag));
      SkipSpaces();
      ghost var a := SkipSpace(s);
      RestIs();
      if eof {
        NoTag(s, tag);
        return EndOfFile();
      }
      var n := MatchLiteral(tag.Text());
      RestIs();
      if n < |tag.Text()| {
        PartOfTag(s, tag, n);
        return if eof then EndOfFile() else 0;
      }
      SkipSpaces();
      RestIs();
      if eof {
        NoValue(s, tag);
        return EndOfFile();
      }
      ghost var b := SkipSpace(a[n..]);
      var word := ReadWord(tag.Limit());
      RestIs();
      SkipSpaces();
      RestIs();
      values := values.With(tag, word);
      WholeTag(s, tag, b, |word|);
      ret := 1;
    }

    lemma RestIs()
      requires Valid()
      ensures pos <= |text| && Rest() == text[pos..]
    {}

    /** The condition in the loop: the calls are made until one does not answer 0. */
    method ReadAny() returns (ret: int)
      requires Valid() && !eof
      modifies this
      ensures Valid()
      ensures var h := ScanAny(old(Rest()));
              && ret == h.scan.ret && eof == h.scan.eof && (!eof ==> Rest() == h.scan.rest)
              && values == Store(old(values), h.tag, h.scan)
    {
      hide ScanTag, Values.With;
      ret := Fscanf(SERVER_URL);
      if ret == 0 {
        ret := Fscanf(TOKEN_ID);
        if ret == 0 {
          ret := Fscanf(USER_ID);
        }
      }
    }

    /** The loop of pushover_init. */
    method LoadFile() returns (ok: bool)
      requires Valid() && !eof
      modifies this
      ensures Valid() && Loaded(ok, values) == Load(old(Rest()), old(values))
    {
      ok := true;
      ghost var s, v := Rest(), values;
      while !eof && ok
        invariant Valid()
        invariant Load(s, v) == if eof || !ok then Loaded(ok, values) else Load(Rest(), values)
        decreases if eof || !ok then 0 else 1 + |Rest()|
      {
        hide ScanAny, Store;
        ghost var now, was := Rest(), values;
        LoadTurn(now, was);
        var ret := ReadAny();
        if ret == 0 {
          ok := false;
        }
      }
    }
  }

  lemma LoadTurn(s: string, v: Values)
    ensures var h := ScanAny(s);
            && (h.scan.ret == 0 ==> Store(v, h.tag, h.scan) == v && !h.scan.eof)
            && Load(s, v) ==
                 if h.scan.ret == 0 then Loaded(false, v)
                 else if h.scan.eof then Loaded(true, Store(v, h.tag, h.scan))
                 else Load(h.scan.rest, Store(v, h.tag, h.scan))
  {
    hide ScanTag, Values.With;
  }

  function EndOfFile(): (r: int)
    ensures r == EOF == -1
  {
    EOF
  }

  lemma StoreCases(v: Values, tag: Tag, scan: Scan)
    ensures Store(v, tag, scan) == if scan.ret == 1 then v.With(tag, scan.word) else v
  {}

  lemma NoTag(s: string, tag: Tag)
    requires SkipSpace(s) == ""
    ensures ScanTag(s, tag) == Scan(EOF, "", "", true)
  {}

  lemma PartOfTag(s: string, tag: Tag, n: nat)
    requires n == Matched(SkipSpace(s), tag.Text()) && n < |tag.Text()|
    ensures ScanTag(s, tag) ==
            if SkipSpace(s)[n..] == "" then Scan(EOF, "", "", true) else Scan(0, "", SkipSpace(s)[n..], false)
  {}

  lemma NoValue(s: string, tag: Tag)
    requires Matched(SkipSpace(s), tag.Text()) == |tag.Text()|
    requires SkipSpace(SkipSpace(s)[|tag.Text()|..]) == ""
    ensures ScanTag(s, tag) == Scan(EOF, "", "", true)
  {}

  lemma WholeTag(s: string, tag: Tag, b: string, n: nat)
    requires Matched(SkipSpace(s), tag.Text()) == |tag.Text()|
    requires b == SkipSpace(SkipSpace(s)[|tag.Text()|..]) && b != "" && n == Word(b, tag.Limit())
    ensures var rest := SkipSpace(b[n..]);
            ScanTag(s, tag) == Scan(1, b[..n], rest, rest == "")
  {}
}
