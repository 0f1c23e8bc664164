/** The picture folder of the file output: how pictures are named, and which of them a clean-up keeps. */
module PictureFolder {
  import opened Collections

  // ----- the order of names -----

  /** strcmp(a, b) < 0 */
  predicate Less(a: string, b: string) {
    b != "" && (a == "" || a[0] < b[0] || (a[0] == b[0] && Less(a[1..], b[1..])))
  }

  lemma {:induction false} LessTrans(a: string, b: string, c: string)
    requires Less(a, b) && Less(b, c)
    ensures Less(a, c)
    decreases |a|
  {
    if a != "" && a[0] == b[0] == c[0] { LessTrans(a[1..], b[1..], c[1..]); }
  }

  lemma {:induction false} LessIrreflexive(a: string)
    ensures !Less(a, a)
  {
    if a != "" { LessIrreflexive(a[1..]); }
  }

  lemma {:induction false} LessTotal(a: string, b: string)
    ensures a == b || Less(a, b) || Less(b, a)
    decreases |a|
  {
    if a != "" && b != "" && a[0] == b[0] {
      LessTotal(a[1..], b[1..]);
      assert a == [a[0]] + a[1..] && b == [b[0]] + b[1..];
    }
  }

  lemma {:induction false} LessAfter(p: string, a: string, b: string)
    ensures Less(p + a, p + b) <==> Less(a, b)
    decreases |p|
  {
    if p == "" {
      assert p + a == a && p + b == b;
    } else {
      assert (p + a)[1..] == p[1..] + a && (p + b)[1..] == p[1..] + b;
      LessAfter(p[1..], a, b);
    }
  }

  lemma {:induction false} LessBefore(a: string, b: string, x: string, y: string)
    requires |a| == |b| && Less(a, b)
    ensures Less(a + x, b + y)
    decreases |a|
  {
    assert (a + x)[1..] == a[1..] + x && (b + y)[1..] == b[1..] + y;
    if a[0] == b[0] { LessBefore(a[1..], b[1..], x, y); }
  }

  // ----- names -----

  function Digit(n: nat): char
    requires n < 10
  {
    ('0' as int + n) as char
  }

  /** %0<width>llu, for numbers of at most that many digits. */
  function Padded(n: nat, width: nat): (s: string)
    requires n < Pow10(width)
    ensures |s| == width
  {
    if width == 0 then "" else Padded(n / 10, width - 1) + [Digit(n % 10)]
  }

  function Pow10(k: nat): nat {
    if k == 0 then 1 else 10 * Pow10(k - 1)
  }

  lemma {:induction false} PaddedOrder(m: nat, n: nat, width: nat)
    requires m < n < Pow10(width)
    ensures Less(Padded(m, width), Padded(n, width))
  {
    if m / 10 < n / 10 {
      PaddedOrder(m / 10, n / 10, width - 1);
      LessBefore(Padded(m / 10, width - 1), Padded(n / 10, width - 1), [Digit(m % 10)], [Digit(n % 10)]);
    } else {
      LessAfter(Padded(m / 10, width - 1), [Digit(m % 10)], [Digit(n % 10)]);
    }
  }

  const PICTURE := "_picture_"
  const JPG := ".jpg"

  function Numbered(counter: nat): string
    requires counter < Pow10(9)
  {
    PICTURE + (Padded(counter, 9) + JPG)
  }

  /** `<date and time>_picture_<counter>.jpg` */
  function PictureName(stamp: string, counter: nat): string
    requires counter < Pow10(9)
  {
    stamp + Numbered(counter)
  }

  lemma NumberOrder(m: nat, n: nat)
    requires m < n < Pow10(9)
    ensures Less(Numbered(m), Numbered(n))
  {
    hide Less, Padded, Pow10, PICTURE, JPG;
    PaddedOrder(m, n, 9);
    LessBefore(Padded(m, 9), Padded(n, 9), JPG, JPG);
    LessAfter(PICTURE, Padded(m, 9) + JPG, Padded(n, 9) + JPG);
  }

  /** Names are ordered as they are written: by their time, and within the same second by the counter. */
  lemma NameOrder(s: string, t: string, m: nat, n: nat)
    requires |s| == |t| && (s == t || Less(s, t)) && m < n < Pow10(9)
    ensures Less(PictureName(s, m), PictureName(t, n))
  {
    hide Less, Pow10, Numbered;
    if s == t {
      NumberOrder(m, n);
      LessAfter(s, Numbered(m), Numbered(n));
    } else {
      LessBefore(s, t, Numbered(m), Numbered(n));
    }
  }

  /** The number that decimal digits write. */
  function Decimal(digits: string): nat
    requires forall i :: 0 <= i < |digits| ==> '0' <= digits[i] <= '9'
  {
    if digits == "" then 0
    else 10 * Decimal(digits[..|digits| - 1]) + (digits[|digits| - 1] as int - '0' as int)
  }

  lemma {:induction false} PaddedDigits(n: nat, width: nat)
    requires n < Pow10(width)
    ensures forall i :: 0 <= i < width ==> '0' <= Padded(n, width)[i] <= '9'
    ensures Decimal(Padded(n, width)) == n
  {
    if width > 0 { PaddedDigits(n / 10, width - 1); }
  }

  /** A name, spelled out: the stamp, "_picture_", nine digits that write the counter, and ".jpg". */
  lemma NameText(stamp: string, counter: nat) returns (digits: string)
    requires counter < Pow10(9)
    ensures |digits| == 9 && (forall i :: 0 <= i < 9 ==> '0' <= digits[i] <= '9') && Decimal(digits) == counter
    ensures PictureName(stamp, counter) == stamp + "_picture_" + digits + ".jpg"
  {
    digits := Padded(counter, 9);
    PaddedDigits(counter, 9);
    hide Padded, Decimal, Pow10;
    assert stamp + ("_picture_" + (digits + ".jpg")) == stamp + "_picture_" + digits + ".jpg";
  }

  /** The names written from the start of the worker, one per stamp. */
  function Names(stamps: seq<string>): (names: seq<string>)
    requires |stamps| <= Pow10(9)
    ensures |names| == |stamps| && forall i :: 0 <= i < |names| ==> names[i] == PictureName(stamps[i], i)
  {
    seq(|stamps|, i requires 0 <= i < |stamps| => PictureName(stamps[i], i))
  }

  /** A clock that does not go back, written with a fixed width. */
  ghost predicate Clock(stamps: seq<string>) {
    forall i, j :: 0 <= i < j < |stamps| ==>
      |stamps[i]| == |stamps[j]| && (stamps[i] == stamps[j] || Less(stamps[i], stamps[j]))
  }

  lemma WrittenInOrder(stamps: seq<string>)
    requires |stamps| <= Pow10(9) && Clock(stamps)
    ensures Increasing(Names(stamps))
  {
    forall i, j | 0 <= i < j < |stamps| ensures Less(Names(stamps)[i], Names(stamps)[j]) {
      NameOrder(stamps[i], stamps[j], i, j);
    }
  }

  // ----- clean-ups -----

  ghost predicate Increasing(names: seq<string>) {
    forall i, j :: 0 <= i < j < |names| ==> Less(names[i], names[j])
  }

  /** What scandir with alphasort answers. */
  ghost predicate Listing(names: seq<string>, files: set<string>) {
    Increasing(names) && Elements(names) == files
  }

  /** `kept` are the largest of `files`. */
  ghost predicate Largest(kept: set<string>, files: set<string>) {
    kept <= files && forall x, y :: x in kept && y in files && y !in kept ==> Less(y, x)
  }

  function Min(a: int, b: int): int { if a < b then a else b }

  method Insert(names: seq<string>, x: string) returns (r: seq<string>)
    requires Increasing(names) && x !in names
    ensures Increasing(r) && |r| == |names| + 1 && Elements(r) == Elements(names) + {x}
  {
    var i := 0;
    while i < |names| && Less(names[i], x)
      invariant i <= |names| && forall k :: 0 <= k < i ==> Less(names[k], x)
    {
      i := i + 1;
    }
    r := names[..i] + [x] + names[i..];
    if i < |names| {
      LessTotal(names[i], x);
      assert Less(x, names[i]);
    }
    forall j, k | 0 <= j < k < |r| ensures Less(r[j], r[k]) {
      if j == i && k > i + 1 { LessTrans(x, names[i], names[k - 1]); }
    }
    forall y ensures y in r <==> y in names || y == x {
      if y in names {
        var k :| 0 <= k < |names| && names[k] == y;
        assert r[if k < i then k else k + 1] == y;
      }
      assert r[i] == x;
    }
  }

  method Scandir(files: set<string>) returns (names: seq<string>)
    ensures Listing(names, files) && |names| == |files|
  {
    names := [];
    var rest := files;
    while rest != {}
      invariant rest <= files && Increasing(names) && Elements(names) == files - rest && |names| + |rest| == |files|
      decreases |rest|
    {
      var x :| x in rest;
      names := Insert(names, x);
      rest := rest - {x};
    }
  }

  class Folder {
    /** The pictures in the folder; other files are not looked at. */
    var pictures: set<string>

    constructor (pictures: set<string>)
      ensures this.pictures == pictures
    {
      this.pictures := pictures;
    }

    method MaintainRingbuffer(size: int)
      modifies this
      ensures size < 0 ==> pictures == old(pictures)
      ensures size >= 0 ==> |pictures| == Min(size, |old(pictures)|) && Largest(pictures, old(pictures))
    {
      if size < 0 {
        return;
      }
      var namelist := Scandir(pictures);
      var n := |namelist|;
      ghost var before := pictures;
      var i := 0;
      while i < n - size
        invariant i <= n && (i == 0 || i <= n - size)
        invariant pictures == Elements(namelist[i..]) && |pictures| == n - i
      {
        DropFirst(namelist, i);
        pictures := pictures - {namelist[i]};
        i := i + 1;
      }
      TailIsLargest(namelist, i, before);
    }

    /** One turn of the worker: the picture is written, and a clean-up follows when it is due. */
    method Turn(name: string, counter: nat, size: int, exceed: int) returns (counter': nat)
      modifies this
      ensures counter' == counter + 1 && Turned(old(pictures) + {name}, pictures, counter', size, exceed)
    {
      pictures := pictures + {name};
      counter' := counter + 1;
      if exceed <= 0 {
        MaintainRingbuffer(size);
      } else if counter' == 1 || counter' % (exceed + 1) == 0 {
        MaintainRingbuffer(size);
      }
    }

    /** The worker writes the pictures one after the other. */
    method WorkerThread(names: seq<string>, size: int, exceed: int)
      modifies this
      ensures size >= 0 && names != [] ==> |pictures| <= size + |names| % (Exceed(exceed) + 1)
      ensures size >= 0 && Increasing(names) && Older(old(pictures), names) ==>
                && Largest(pictures, old(pictures) + Elements(names))
                && |pictures| >= Min(size, |old(pictures)| + |names|)
      ensures size >= 0 && Increasing(names) && Older(old(pictures), names) && names != [] ==>
                |pictures| == Count(|old(pictures)|, |names|, size, exceed)
      ensures size < 0 ==> pictures == old(pictures) + Elements(names)
      ensures |pictures| <= |old(pictures)| + |names|
      ensures size >= 0 && names != [] && Due(|names|, exceed) ==> |pictures| <= size
    {
      hide *;
      var counter := 0;
      ghost var start := pictures;
      NothingWritten(start, names, size, exceed);
      while counter < |names|
        invariant counter <= |names| && Written(start, names, size, exceed, counter, pictures)
      {
        ghost var before, n := pictures, counter;
        counter := Turn(names[counter], counter, size, exceed);
        OneMoreWritten(start, names, size, exceed, n, before, pictures);
      }
      AllWritten(start, names, size, exceed, pictures);
    }
  }

  /** What a turn makes of the pictures with the new one among them. */
  ghost predicate Turned(written: set<string>, after: set<string>, counter: nat, size: int, exceed: int) {
    && Largest(after, written)
    && (size < 0 || !Due(counter, exceed) ==> after == written)
    && (size >= 0 && Due(counter, exceed) ==> |after| == Min(size, |written|))
  }

  /** How many pictures there are after `counter` turns, if there were n at the start. */
  ghost predicate Bounded(n: nat, size: int, exceed: int, counter: nat, count: nat) {
    && count <= n + counter
    && (size >= 0 && counter > 0 ==> count <= size + counter % (Exceed(exceed) + 1))
    && (size >= 0 && counter > 0 && Due(counter, exceed) ==> count <= size)
  }

  /** ... exactly, when the names are new. */
  ghost predicate Counted(n: nat, size: int, exceed: int, counter: nat, count: nat) {
    size >= 0 ==>
      && count >= Min(size, n + counter)
      && count == if counter == 0 then n else Count(n, counter, size, exceed)
  }

  /** The folder after `counter` turns. */
  ghost predicate Written(start: set<string>, names: seq<string>, size: int, exceed: int, counter: nat,
                          pictures: set<string>)
  {
    && counter <= |names| && Bounded(|start|, size, exceed, counter, |pictures|)
    && (size < 0 ==> pictures == start + Elements(names[..counter]))
    && (Increasing(names) && Older(start, names) ==>
          && Largest(pictures, start + Elements(names[..counter]))
          && Counted(|start|, size, exceed, counter, |pictures|))
  }

  /** The last of the first c > 0 turns that cleaned up: every one, or the first and each (exceed + 1)-th. */
  function LastCleanUp(c: nat, exceed: int): (l: nat)
    requires c > 0
    ensures 0 < l <= c
  {
    if exceed <= 0 then c
    else if c <= exceed then 1
    else
      ModBound(c, exceed + 1);
      c - c % (exceed + 1)
  }

  lemma ModBound(c: nat, m: nat)
    requires m > 0 && c >= m
    ensures 0 <= c % m && 0 < c - c % m
  {}

  /** How many pictures there are after c turns, if there were n at the start: since the last clean-up all are kept. */
  function Count(n: nat, c: nat, size: nat, exceed: int): int
    requires c > 0
  {
    Min(size, n + LastCleanUp(c, exceed)) + (c - LastCleanUp(c, exceed))
  }

  lemma CleanUpStep(c: nat, exceed: int)
    requires c > 0
    ensures LastCleanUp(c + 1, exceed) == if Due(c + 1, exceed) then c + 1 else LastCleanUp(c, exceed)
  {
    if exceed > 0 && !Due(c + 1, exceed) { NextRemainder(c, exceed + 1); }
    if exceed > 0 && c + 1 <= exceed { SmallRemainder(c + 1, exceed + 1); }
    if exceed > 0 && c == exceed { SelfRemainder(exceed + 1); }
  }

  lemma SmallRemainder(c: nat, m: nat)
    requires 0 < c < m
    ensures c % m == c
  {}

  lemma SelfRemainder(m: nat)
    requires m > 0
    ensures m % m == 0
  {}

  lemma CountStep(n: nat, c: nat, before: nat, after: nat, size: nat, exceed: int)
    requires if c == 0 then before == n else before == Count(n, c, size, exceed)
    requires after == if Due(c + 1, exceed) then Min(size, before + 1) else before + 1
    ensures after == Count(n, c + 1, size, exceed)
  {
    if c == 0 {
    } else {
      CleanUpStep(c, exceed);
      hide LastCleanUp, Due;
    }
  }

  lemma AllWritten(start: set<string>, names: seq<string>, size: int, exceed: int, pictures: set<string>)
    requires Written(start, names, size, exceed, |names|, pictures)
    ensures size >= 0 && names != [] ==> |pictures| <= size + |names| % (Exceed(exceed) + 1)
    ensures size >= 0 && Increasing(names) && Older(start, names) ==>
              Largest(pictures, start + Elements(names)) && |pictures| >= Min(size, |start| + |names|)
    ensures size >= 0 && Increasing(names) && Older(start, names) && names != [] ==>
              |pictures| == Count(|start|, |names|, size, exceed)
    ensures size < 0 ==> pictures == start + Elements(names)
    ensures |pictures| <= |start| + |names|
    ensures size >= 0 && names != [] && Due(|names|, exceed) ==> |pictures| <= size
  {
    hide Largest, Increasing, Older, Due, Min, Count;
    assert names[..|names|] == names;
  }

  lemma ElementsMore(names: seq<string>, n: nat)
    requires n < |names|
    ensures Elements(names[..n + 1]) == Elements(names[..n]) + {names[n]}
  {
    assert names[..n + 1] == names[..n] + [names[n]];
  }

  lemma BoundedMore(n: nat, size: int, exceed: int, c: nat, before: nat, written: nat, after: nat)
    requires Bounded(n, size, exceed, c, before) && written <= before + 1
    requires after <= written && (size >= 0 ==> after == if Due(c + 1, exceed) then Min(size, written) else written)
    ensures Bounded(n, size, exceed, c + 1, after)
  {
    hide Due;
    if size >= 0 {
      MinBound(size, written);
      BoundStep(before, written, after, c, c + 1, size, exceed);
    }
  }

  lemma CountedMore(n: nat, size: int, exceed: int, c: nat, before: nat, after: nat)
    requires Counted(n, size, exceed, c, before)
    requires size >= 0 ==> after == if Due(c + 1, exceed) then Min(size, before + 1) else before + 1
    ensures Counted(n, size, exceed, c + 1, after)
  {
    hide Due, Count;
    if size >= 0 {
      SizeStep(before, after, n + c, size, Due(c + 1, exceed));
      CountStep(n, c, before, after, size, exceed);
    }
  }

  lemma TurnedCount(written: set<string>, after: set<string>, counter: nat, size: int, exceed: int)
    requires Turned(written, after, counter, size, exceed)
    ensures |after| <= |written|
    ensures size >= 0 ==> |after| == if Due(counter, exceed) then Min(size, |written|) else |written|
    ensures size < 0 ==> after == written
    ensures Largest(after, written)
  {
    FewerKept(after, written);
    hide Largest, Due, Min;
  }

  lemma OneMoreWritten(start: set<string>, names: seq<string>, size: int, exceed: int, n: nat,
                       before: set<string>, after: set<string>)
    requires n < |names| && Written(start, names, size, exceed, n, before)
    requires Turned(before + {names[n]}, after, n + 1, size, exceed)
    ensures Written(start, names, size, exceed, n + 1, after)
  {
    hide Largest, Increasing, Older, Due, Min, Bounded, Counted, Turned, NewerThanAll;
    var name := names[n];
    ElementsMore(names, n);
    OneMore(before, name);
    TurnedCount(before + {name}, after, n + 1, size, exceed);
    BoundedMore(|start|, size, exceed, n, |before|, |before + {name}|, |after|);
    if Increasing(names) && Older(start, names) {
      NamesMore(start, names, n);
      LargestStep(before, start + Elements(names[..n]), after, name);
      CountedMore(|start|, size, exceed, n, |before|, |after|);
    }
    if size < 0 { assert after == start + Elements(names[..n]) + {name}; }
  }

  lemma NothingWritten(start: set<string>, names: seq<string>, size: int, exceed: int)
    ensures Written(start, names, size, exceed, 0, start)
  {
    assert names[..0] == [] && start + Elements([]) == start;
  }

  lemma FewerKept(kept: set<string>, files: set<string>)
    requires Largest(kept, files)
    ensures |kept| <= |files|
  {
    Subset(kept, files);
  }

  lemma {:induction false} Subset<T>(a: set<T>, b: set<T>)
    requires a <= b
    ensures |a| <= |b|
  {
    if a != {} {
      var x :| x in a;
      Subset(a - {x}, b - {x});
    }
  }

  lemma MinBound(a: int, b: int)
    ensures Min(a, b) <= a
  {}

  /** When the worker cleans up. */
  predicate Due(counter: nat, exceed: int) {
    exceed <= 0 || counter == 1 || counter % (exceed + 1) == 0
  }

  lemma OneMore(files: set<string>, x: string)
    ensures |files + {x}| <= |files| + 1
    ensures x !in files ==> |files + {x}| == |files| + 1
  {
    if x in files { assert files + {x} == files; }
  }

  lemma BoundStep(before: nat, written: nat, after: nat, n: nat, counter: nat, size: nat, exceed: int)
    requires counter == n + 1 && written <= before + 1
    requires if Due(counter, exceed) then after == Min(size, written) else after == written
    requires n > 0 ==> before <= size + n % (Exceed(exceed) + 1)
    ensures after <= size + counter % (Exceed(exceed) + 1)
  {
    if !Due(counter, exceed) {
      NextRemainder(n, exceed + 1);
    }
  }

  lemma NextRemainder(n: nat, m: nat)
    requires m > 0 && (n + 1) % m != 0
    ensures (n + 1) % m == n % m + 1
  {
    var q, r := n / m, n % m;
    if r + 1 < m {
      RemainderIs(n + 1, m, q, r + 1);
    } else {
      assert (q + 1) * m == q * m + m;
      RemainderIs(n + 1, m, q + 1, 0);
    }
  }

  lemma RemainderIs(a: nat, m: nat, q: nat, r: nat)
    requires m > 0 && a == q * m + r && r < m
    ensures a % m == r
  {
    var p, s := a / m, a % m;
    assert a == p * m + s;
    if p < q {
      Times(p + 1, q, m);
    } else if q < p {
      Times(q + 1, p, m);
    }
  }

  lemma Times(a: nat, b: nat, m: nat)
    requires a <= b
    ensures a * m <= b * m
  {}

  lemma SizeStep(before: nat, after: nat, n: nat, size: int, due: bool)
    requires size >= 0 ==> before >= Min(size, n) && after == if due then Min(size, before + 1) else before + 1
    ensures size >= 0 ==> after >= Min(size, n + 1)
  {}

  lemma NamesMore(start: set<string>, names: seq<string>, n: nat)
    requires Increasing(names) && Older(start, names) && n < |names|
    ensures NewerThanAll(start + Elements(names[..n]), names[n])
    ensures start + Elements(names[..n + 1]) == start + Elements(names[..n]) + {names[n]}
  {
    assert NewerThanAll(start, names[n]);
    assert names[..n + 1] == names[..n] + [names[n]];
    forall x | x in names[..n] ensures Less(x, names[n]) {
      var k :| 0 <= k < n && names[..n][k] == x;
      assert Less(names[k], names[n]);
    }
  }

  /** The largest of the largest: what is newer than everything joins them, and a clean-up takes away the smallest. */
  lemma LargestStep(kept: set<string>, files: set<string>, after: set<string>, name: string)
    requires Largest(kept, files) && NewerThanAll(files, name) && Largest(after, kept + {name})
    ensures Largest(after, files + {name})
    ensures name !in kept
  {
    LessIrreflexive(name);
    forall x, y | x in after && y in files + {name} && y !in after ensures Less(y, x) {
      if y in kept + {name} {
      } else if x == name {
      } else {
        assert x in kept && y in files && y !in kept;
      }
    }
  }

  function Exceed(exceed: int): nat { if exceed < 0 then 0 else exceed }

  ghost predicate NewerThanAll(files: set<string>, name: string) {
    forall x :: x in files ==> Less(x, name)
  }

  /** Everything there at the start has a smaller name than what is written. */
  ghost predicate Older(files: set<string>, names: seq<string>) {
    forall i :: 0 <= i < |names| ==> NewerThanAll(files, names[i])
  }

  lemma DropFirst(names: seq<string>, i: nat)
    requires Increasing(names) && i < |names|
    ensures names[i] in Elements(names[i..]) && Elements(names[i + 1..]) == Elements(names[i..]) - {names[i]}
  {
    var tail := names[i + 1..];
    assert names[i..] == [names[i]] + tail;
    forall x | x in tail ensures x != names[i] {
      var k :| 0 <= k < |tail| && tail[k] == x;
      assert Less(names[i], names[i + 1 + k]);
      LessIrreflexive(x);
    }
  }

  lemma TailIsLargest(names: seq<string>, i: nat, files: set<string>)
    requires Listing(names, files) && i <= |names|
    ensures Largest(Elements(names[i..]), files)
  {
    forall x, y | x in names[i..] && y in files && y !in names[i..] ensures Less(y, x) {
      var k :| 0 <= k < |names[i..]| && names[i..][k] == x;
      assert names == names[..i] + names[i..];
      var j :| 0 <= j < i && names[..i][j] == y;
      assert names[i + k] == x && names[j] == y;
    }
  }

  /** What is kept of pictures written in the order of their names are the last ones. */
  lemma {:induction false} LastOnesKept(kept: set<string>, start: set<string>, names: seq<string>, k: nat)
    requires Increasing(names) && Older(start, names) && k <= |names|
    requires Largest(kept, start + Elements(names)) && |kept| == k
    ensures kept == Elements(names[|names| - k..])
    decreases k
  {
    hide *;
    if k == 0 {
      NoneKept(kept, names);
    } else {
      var n := |names| - 1;
      var last, front := names[n], names[..n];
      NamesMore(start, names, n);
      assert names[..n + 1] == names;
      LastIsKept(kept, start + Elements(front), last);
      FrontOf(start, names, n);
      LessOne(kept, last);
      LastOnesKept(kept - {last}, start, front, k - 1);
      LastJoins(names, n, k);
    }
  }

  lemma LessOne(kept: set<string>, last: string)
    requires last in kept
    ensures |kept - {last}| + 1 == |kept| && kept == kept - {last} + {last}
  {}

  lemma NoneKept(kept: set<string>, names: seq<string>)
    requires |kept| == 0
    ensures kept == Elements(names[|names| - 0..])
  {
    assert names[|names| - 0..] == [];
  }

  lemma FrontOf(start: set<string>, names: seq<string>, n: nat)
    requires Increasing(names) && Older(start, names) && n <= |names|
    ensures Increasing(names[..n]) && Older(start, names[..n])
  {
    hide Less, NewerThanAll;
  }

  lemma LastJoins(names: seq<string>, n: nat, k: nat)
    requires n + 1 == |names| && 0 < k <= |names|
    ensures Elements(names[|names| - k..]) == Elements(names[..n][|names[..n]| - (k - 1)..]) + {names[n]}
  {
    assert names[|names| - k..] == names[..n][|names[..n]| - (k - 1)..] + [names[n]];
  }

  /** The newest of all is kept, and without it the rest are the largest of the rest. */
  lemma LastIsKept(kept: set<string>, files: set<string>, last: string)
    requires Largest(kept, files + {last}) && NewerThanAll(files, last) && kept != {}
    ensures last in kept && Largest(kept - {last}, files)
  {
    var x :| x in kept;
    LessIrreflexive(last);
    if last !in kept {
      assert Less(last, x) && Less(x, last);
      LessTrans(last, x, last);
    }
    var less := kept - {last};
    forall x, y | x in less && y in files && y !in less ensures Less(y, x) {}
  }

  /** When there is room for them, all pictures written are kept. */
  lemma {:induction false} AllNewKept(kept: set<string>, start: set<string>, names: seq<string>)
    requires Increasing(names) && Older(start, names)
    requires Largest(kept, start + Elements(names)) && |kept| >= |names|
    ensures Elements(names) <= kept
    decreases |names|
  {
    hide *;
    if names == [] {
      NoneWritten(kept);
    } else {
      var n := |names| - 1;
      var last, front := names[n], names[..n];
      NamesMore(start, names, n);
      assert names[..n + 1] == names;
      SomeKept(kept);
      LastIsKept(kept, start + Elements(front), last);
      FrontOf(start, names, n);
      AllNewKept(kept - {last}, start, front);
      LastWritten(kept, names, n);
    }
  }

  lemma NoneWritten(kept: set<string>)
    ensures Elements([]) <= kept
  {}

  lemma SomeKept(kept: set<string>)
    requires |kept| >= 1
    ensures kept != {}
  {}

  lemma LastWritten(kept: set<string>, names: seq<string>, n: nat)
    requires n + 1 == |names| && names[n] in kept && Elements(names[..n]) <= kept - {names[n]}
    ensures Elements(names) <= kept
  {
    assert names == names[..n] + [names[n]];
  }

  /** The pictures there at the start were taken at earlier times, with any counters. */
  ghost predicate Earlier(files: set<string>, stamps: seq<string>) {
    forall x :: x in files ==> exists t, m: nat :: TakenAt(x, t, m) && Before(t, stamps)
  }

  ghost predicate Before(t: string, stamps: seq<string>) {
    forall i :: 0 <= i < |stamps| ==> |t| == |stamps[i]| && Less(t, stamps[i])
  }

  ghost predicate TakenAt(x: string, stamp: string, counter: nat) {
    counter < Pow10(9) && x == PictureName(stamp, counter)
  }

  lemma EarlierIsOlder(files: set<string>, stamps: seq<string>)
    requires |stamps| <= Pow10(9) && Earlier(files, stamps)
    ensures Older(files, Names(stamps))
  {
    hide Less, Pow10, Numbered;
    forall i, x | 0 <= i < |stamps| && x in files ensures Less(x, Names(stamps)[i]) {
      var t, m: nat :| TakenAt(x, t, m) && Before(t, stamps);
      LessBefore(t, stamps[i], Numbered(m), Numbered(i));
    }
  }

  /**
    The ring buffer, in terms of time: when the clock does not go back, any clean-up leaves the pictures written
    last, `size` of them, and older ones only when not as many have been written.
   */
  method CleanedWorker(folder: Folder, stamps: seq<string>, size: nat, exceed: int)
    requires 0 < |stamps| <= Pow10(9) && Clock(stamps) && Earlier(folder.pictures, stamps)
    requires Due(|stamps|, exceed)
    modifies folder
    ensures |folder.pictures| == Min(size, |old(folder.pictures)| + |stamps|)
    ensures Largest(folder.pictures, old(folder.pictures) + Elements(Names(stamps)))
    ensures size <= |stamps| ==> folder.pictures == Elements(Names(stamps)[|stamps| - size..])
    ensures size >= |stamps| ==> Elements(Names(stamps)) <= folder.pictures
  {
    hide Pow10, Clock, Earlier, Names, Increasing, Older, Largest, Due;
    ghost var start := folder.pictures;
    var names := Names(stamps);
    WrittenInOrder(stamps);
    EarlierIsOlder(start, stamps);
    folder.WorkerThread(names, size, exceed);
    if size <= |names| {
      LastOnesKept(folder.pictures, start, names, size);
    }
    if size >= |names| {
      AllNewKept(folder.pictures, start, names);
    }
  }
}
