/**
  Replacing a word at word starts. Strings are without their terminating NUL, and pointers into the source string
  are indices.
 */
module WordRewriting {

  const NUL := '\0'

  // ----- what is found -----

  predicate At(s: string, q: int, w: string) {
    0 <= q && q + |w| <= |s| && s[q..q + |w|] == w
  }

  /** strstr from position p on; -1 stands for NULL. */
  function StrStr(s: string, p: nat, w: string): (q: int)
    requires p <= |s|
    ensures q == -1 || (p <= q && q + |w| <= |s| && At(s, q, w))
    ensures forall k :: p <= k && (q == -1 || k < q) ==> !At(s, k, w)
    decreases |s| - p
  {
    if At(s, p, w) then p else if p == |s| then -1 else StrStr(s, p + 1, w)
  }

  /** Where the string that starts at p begins, or after a space. */
  predicate WordStart(s: string, p: nat, q: int)
    requires p <= q <= |s|
  {
    q == p || s[q - 1] == ' '
  }

  /** The first occurrence at a word start of the string that begins at p. */
  function Find(s: string, p: nat, w: string, from: nat): (q: int)
    requires p <= from <= |s|
    ensures q == -1 || (from <= q && q + |w| <= |s| && At(s, q, w) && WordStart(s, p, q))
    decreases |s| - from
  {
    if At(s, from, w) && WordStart(s, p, from) then from
    else if from == |s| then -1
    else Find(s, p, w, from + 1)
  }

  lemma {:induction false} FindSkips(s: string, p: nat, w: string, from: nat, k: nat)
    requires p <= from <= k <= |s|
    requires forall j :: from <= j < k ==> !(At(s, j, w) && WordStart(s, p, j))
    ensures Find(s, p, w, from) == Find(s, p, w, k)
    decreases k - from
  {
    if from < k { FindSkips(s, p, w, from + 1, k); }
  }

  lemma {:induction false} FindNone(s: string, p: nat, w: string, from: nat)
    requires p <= from <= |s|
    requires forall j :: from <= j <= |s| ==> !(At(s, j, w) && WordStart(s, p, j))
    ensures Find(s, p, w, from) == -1
    decreases |s| - from
  {
    if from < |s| { FindNone(s, p, w, from + 1); }
  }

  lemma {:induction false} FindFirst(s: string, p: nat, w: string, from: nat, j: nat)
    requires p <= from <= j <= |s|
    requires Find(s, p, w, from) == -1 || j < Find(s, p, w, from)
    ensures !(At(s, j, w) && WordStart(s, p, j))
    decreases |s| - from
  {
    if from < j { FindFirst(s, p, w, from + 1, j); }
  }

  lemma FindHere(s: string, p: nat, w: string, q: nat)
    requires p <= q <= |s| && At(s, q, w) && WordStart(s, p, q)
    ensures Find(s, p, w, q) == q
  {}

  method InitialStrstr(s: string, p: nat, w: string) returns (q: int)
    requires p <= |s| && w != ""
    ensures q == Find(s, p, w, p)
  {
    hide At, StrStr, Find;
    q := StrStr(s, p, w);
    ghost var from := p;
    while q != -1 && q != p && s[q - 1] != ' '
      invariant p <= from <= |s| && q == StrStr(s, from, w)
      invariant Find(s, p, w, p) == Find(s, p, w, from)
      decreases |s| - from
    {
      FindSkips(s, p, w, from, q + 1);
      from := q + 1;
      q := StrStr(s, q + 1, w);
    }
    if q == -1 {
      FindNone(s, p, w, from);
    } else {
      FindSkips(s, p, w, from, q);
      FindHere(s, p, w, q);
    }
  }

  // ----- occurrences, segments, replacement -----

  /** The occurrences that the loops visit from position p on. */
  function Visits(s: string, w: string, p: nat): (v: seq<nat>)
    requires p <= |s| && w != ""
    decreases |s| - p
  {
    var q := Find(s, p, w, p);
    if q == -1 then [] else [q] + Visits(s, w, q + |w|)
  }

  /** What lies before, between and after them. */
  function Segments(s: string, w: string, p: nat): (segs: seq<string>)
    requires p <= |s| && w != ""
    ensures |segs| == |Visits(s, w, p)| + 1
    decreases |s| - p
  {
    var q := Find(s, p, w, p);
    if q == -1 then [s[p..]] else [s[p..q]] + Segments(s, w, q + |w|)
  }

  function Join(segs: seq<string>, w: string): string
    requires segs != []
  {
    if |segs| == 1 then segs[0] else segs[0] + w + Join(segs[1..], w)
  }

  function Replaced(s: string, oldWord: string, newWord: string): string
    requires oldWord != ""
  {
    Join(Segments(s, oldWord, 0), newWord)
  }

  /** The source is its segments joined by the old word. */
  lemma {:induction false} SegmentsJoin(s: string, w: string, p: nat)
    requires p <= |s| && w != ""
    ensures Join(Segments(s, w, p), w) == s[p..]
    decreases |s| - p
  {
    hide Find;
    var q := Find(s, p, w, p);
    if q != -1 {
      SegmentsJoin(s, w, q + |w|);
      var rest := Segments(s, w, q + |w|);
      assert ([s[p..q]] + rest)[1..] == rest;
      assert s[p..] == s[p..q] + s[q..q + |w|] + s[q + |w|..];
    }
  }

  /** Replacing a word by itself changes nothing. */
  lemma ReplaceByItself(s: string, w: string)
    requires w != ""
    ensures Replaced(s, w, w) == s
  {
    SegmentsJoin(s, w, 0);
    assert s[0..] == s;
  }

  function Lengths(segs: seq<string>): nat {
    if segs == [] then 0 else |segs[0]| + Lengths(segs[1..])
  }

  lemma {:induction false} JoinLength(segs: seq<string>, w: string)
    requires segs != []
    ensures |Join(segs, w)| == Lengths(segs) + (|segs| - 1) * |w|
    decreases |segs|
  {
    if |segs| > 1 {
      JoinLength(segs[1..], w);
      assert (|segs| - 1) * |w| == (|segs| - 2) * |w| + |w|;
    } else {
      assert segs[1..] == [];
    }
  }

  /** The size formula: the subtraction does not underflow, and what comes out is exactly the length of the result. */
  lemma ReplacedLength(s: string, oldWord: string, newWord: string)
    requires oldWord != ""
    ensures var n := |Visits(s, oldWord, 0)|;
            && n * |oldWord| <= |s|
            && |Replaced(s, oldWord, newWord)| == |s| - n * |oldWord| + n * |newWord|
  {
    var segs := Segments(s, oldWord, 0);
    SegmentsJoin(s, oldWord, 0);
    JoinLength(segs, oldWord);
    JoinLength(segs, newWord);
  }

  // ----- which occurrences are visited -----

  lemma {:induction false} VisitsBounds(s: string, w: string, p: nat, k: nat)
    requires p <= |s| && w != "" && k < |Visits(s, w, p)|
    ensures p <= Visits(s, w, p)[k] && At(s, Visits(s, w, p)[k], w)
    decreases |s| - p
  {
    hide Find;
    var q := Find(s, p, w, p);
    if k > 0 { VisitsBounds(s, w, q + |w|, k - 1); }
  }

  /** An occurrence begins inside a visited one. */
  ghost predicate Covered(v: seq<nat>, w: string, q: int) {
    exists k :: 0 <= k < |v| && v[k] < q < v[k] + |w|
  }

  /** Directly behind a visited occurrence. */
  ghost predicate Follows(v: seq<nat>, w: string, q: int) {
    exists k :: 0 <= k < |v| && q == v[k] + |w|
  }

  lemma VisitsAfter(s: string, w: string, p: nat)
    requires p <= |s| && w != ""
    ensures forall k :: 0 <= k < |Visits(s, w, p)| ==> p <= Visits(s, w, p)[k]
  {
    forall k | 0 <= k < |Visits(s, w, p)| ensures p <= Visits(s, w, p)[k] { VisitsBounds(s, w, p, k); }
  }

  /** One more occurrence in front makes a difference only up to its end. */
  lemma FrontOccurrence(v: seq<nat>, f: nat, w: string, q: int)
    requires w != ""
    ensures q >= f + |w| ==> (Covered([f] + v, w, q) <==> Covered(v, w, q)) && (q in [f] + v <==> q in v)
    ensures Follows([f] + v, w, q) <==> q == f + |w| || Follows(v, w, q)
  {
    var u := [f] + v;
    if Covered(v, w, q) {
      var k :| 0 <= k < |v| && v[k] < q < v[k] + |w|;
      assert u[k + 1] == v[k];
    }
    if Follows(v, w, q) {
      var k :| 0 <= k < |v| && q == v[k] + |w|;
      assert u[k + 1] == v[k];
    }
    if q == f + |w| {
      assert u[0] == f;
    }
  }

  /** What VisitedIff says of one position. */
  ghost predicate VisitedRight(s: string, w: string, p: nat, v: seq<nat>, q: nat)
    requires p <= q <= |s|
  {
    q in v <==> At(s, q, w) && (WordStart(s, p, q) || Follows(v, w, q)) && !Covered(v, w, q)
  }

  lemma RightBefore(s: string, w: string, p: nat, v: seq<nat>, q: nat)
    requires p <= q <= |s| && w != "" && !(At(s, q, w) && WordStart(s, p, q))
    requires forall k :: 0 <= k < |v| ==> q < v[k]
    ensures VisitedRight(s, w, p, v, q)
  {
    hide At;
  }

  lemma RightAt(s: string, w: string, p: nat, v: seq<nat>, q: nat)
    requires p <= q <= |s| && At(s, q, w) && WordStart(s, p, q)
    requires v != [] && v[0] == q && forall k :: 0 < k < |v| ==> q < v[k]
    ensures VisitedRight(s, w, p, v, q)
  {
    hide At;
    assert forall k :: 0 <= k < |v| ==> v[k] >= q;
  }

  lemma RightInside(s: string, w: string, p: nat, v: seq<nat>, q: nat)
    requires p <= q <= |s| && v != [] && v[0] < q < v[0] + |w|
    requires forall k :: 0 < k < |v| ==> q < v[k]
    ensures VisitedRight(s, w, p, v, q)
  {
    hide At;
    assert Covered(v, w, q);
  }

  lemma RightBehind(s: string, w: string, p: nat, f: nat, v: seq<nat>, q: nat, rest: nat)
    requires p <= f && rest == f + |w| <= q <= |s| && w != ""
    requires VisitedRight(s, w, rest, v, q)
    ensures VisitedRight(s, w, p, [f] + v, q)
  {
    FrontOccurrence(v, f, w, q);
    hide At, Covered, Follows;
  }

  /**
    Exactly these occurrences are visited: at the start, after a space, or directly behind another one that is
    visited, and not inside one that is. (The documentation of the functions does not mention the third kind.)
   */
  lemma {:induction false} VisitedIff(s: string, w: string, p: nat, q: nat)
    requires p <= q <= |s| && w != ""
    ensures var v := Visits(s, w, p);
            q in v <==> At(s, q, w) && (WordStart(s, p, q) || Follows(v, w, q)) && !Covered(v, w, q)
    decreases |s| - p
  {
    hide *;
    VisitsUnfold(s, w, p);
    var f := Find(s, p, w, p);
    if f == -1 || q < f { FindFirst(s, p, w, p, q); }
    if f == -1 {
      RightBefore(s, w, p, [], q);
      RightIs(s, w, p, [], q);
    } else {
      var rest := f + |w|;
      var v := Visits(s, w, rest);
      VisitsAfter(s, w, rest);
      if q < f {
        RightBefore(s, w, p, [f] + v, q);
      } else if q == f {
        RightAt(s, w, p, [f] + v, q);
      } else if q < rest {
        RightInside(s, w, p, [f] + v, q);
      } else {
        VisitedIff(s, w, rest, q);
        IsRight(s, w, rest, v, q);
        RightBehind(s, w, p, f, v, q, rest);
      }
      RightIs(s, w, p, [f] + v, q);
    }
  }

  lemma VisitsUnfold(s: string, w: string, p: nat)
    requires p <= |s| && w != ""
    ensures var q := Find(s, p, w, p);
            Visits(s, w, p) == if q == -1 then [] else [q] + Visits(s, w, q + |w|)
  {
    hide Find, At;
  }

  lemma RightIs(s: string, w: string, p: nat, v: seq<nat>, q: nat)
    requires p <= q <= |s| && VisitedRight(s, w, p, v, q)
    ensures q in v <==> At(s, q, w) && (WordStart(s, p, q) || Follows(v, w, q)) && !Covered(v, w, q)
  {}

  lemma IsRight(s: string, w: string, p: nat, v: seq<nat>, q: nat)
    requires p <= q <= |s|
    requires q in v <==> At(s, q, w) && (WordStart(s, p, q) || Follows(v, w, q)) && !Covered(v, w, q)
    ensures VisitedRight(s, w, p, v, q)
  {}

  // ----- what the documentation promises -----

  /** The occurrences at the start of the string or after a space, from the left and without overlap, from p on. */
  function Documented(s: string, w: string, p: nat): (v: seq<nat>)
    requires p <= |s| && w != ""
    decreases |s| - p
  {
    var q := Find(s, 0, w, p);
    if q == -1 then [] else [q] + Documented(s, w, q + |w|)
  }

  /** An occurrence that does not begin a word. */
  predicate Extra(s: string, w: string, q: nat) {
    At(s, q, w) && !WordStart(s, 0, q)
  }

  /** One of the occurrences in v is directly followed by an extra one. */
  ghost predicate ExtraBehind(s: string, w: string, v: seq<nat>) {
    exists k :: 0 <= k < |v| && Extra(s, w, v[k] + |w|)
  }

  lemma {:induction false} SameBehind(s: string, w: string, p: nat, from: nat)
    requires p < from <= |s|
    ensures Find(s, p, w, from) == Find(s, 0, w, from)
    decreases |s| - from
  {
    hide At;
    if from < |s| { SameBehind(s, w, p, from + 1); }
  }

  /** Searching from p on as in a string of its own makes a difference only when an extra occurrence begins at p. */
  lemma SameFind(s: string, w: string, p: nat)
    requires p <= |s|
    ensures Find(s, p, w, p) == Find(s, 0, w, p) <==> !Extra(s, w, p)
  {
    hide At;
    if p < |s| { SameBehind(s, w, p, p + 1); }
  }

  lemma FrontExtra(s: string, w: string, q: nat, v: seq<nat>)
    ensures ExtraBehind(s, w, [q] + v) <==> Extra(s, w, q + |w|) || ExtraBehind(s, w, v)
  {
    hide Extra;
    var u := [q] + v;
    assert u[0] == q;
    if ExtraBehind(s, w, v) {
      var k :| 0 <= k < |v| && Extra(s, w, v[k] + |w|);
      assert u[k + 1] == v[k];
    }
  }

  lemma DocumentedUnfold(s: string, w: string, p: nat)
    requires p <= |s| && w != ""
    ensures var q := Find(s, 0, w, p);
            Documented(s, w, p) == if q == -1 then [] else [q] + Documented(s, w, q + |w|)
  {
    hide Find, At;
  }

  lemma {:induction false} VisitsDocumentedFrom(s: string, w: string, p: nat)
    requires p <= |s| && w != ""
    ensures Visits(s, w, p) == Documented(s, w, p) <==> !Extra(s, w, p) && !ExtraBehind(s, w, Documented(s, w, p))
    decreases |s| - p
  {
    hide *;
    SameFind(s, w, p);
    VisitsUnfold(s, w, p);
    DocumentedUnfold(s, w, p);
    var q, d := Find(s, p, w, p), Find(s, 0, w, p);
    if q != d {
      if q != -1 && d != -1 { assert Visits(s, w, p)[0] == q && Documented(s, w, p)[0] == d; }
    } else if q == -1 {
      NothingBehind(s, w);
    } else {
      VisitsDocumentedFrom(s, w, q + |w|);
      FrontExtra(s, w, q, Documented(s, w, q + |w|));
      assert Visits(s, w, p)[1..] == Visits(s, w, q + |w|) && Documented(s, w, p)[1..] == Documented(s, w, q + |w|);
    }
  }

  lemma NothingBehind(s: string, w: string)
    ensures !ExtraBehind(s, w, [])
  {}

  /**
    Exactly when only word starts are visited, as the documentation says: when none of them is directly followed by an
    occurrence that does not begin a word itself.
   */
  lemma VisitsDocumentedIff(s: string, w: string)
    requires w != ""
    ensures Visits(s, w, 0) == Documented(s, w, 0) <==> !ExtraBehind(s, w, Documented(s, w, 0))
  {
    hide Visits, Documented, ExtraBehind, At;
    VisitsDocumentedFrom(s, w, 0);
  }

  lemma {:induction false} DocumentedStarts(s: string, w: string, p: nat, k: nat)
    requires p <= |s| && w != "" && k < |Documented(s, w, p)|
    ensures var q := Documented(s, w, p)[k]; p <= q <= |s| && At(s, q, w) && WordStart(s, 0, q)
    decreases |s| - p
  {
    hide *;
    DocumentedUnfold(s, w, p);
    var q := Find(s, 0, w, p);
    if k > 0 { DocumentedStarts(s, w, q + |w|, k - 1); }
  }

  lemma DocumentedAfter(s: string, w: string, p: nat)
    requires p <= |s| && w != ""
    ensures forall k :: 0 <= k < |Documented(s, w, p)| ==> p <= Documented(s, w, p)[k]
  {
    hide *;
    forall k | 0 <= k < |Documented(s, w, p)| ensures p <= Documented(s, w, p)[k] { DocumentedStarts(s, w, p, k); }
  }

  /** Inside an occurrence of a word without spaces no word begins. */
  lemma NoStartInside(s: string, w: string, d: nat, q: nat)
    requires At(s, d, w) && ' ' !in w && d < q <= d + |w|
    ensures q <= |s| && !WordStart(s, 0, q)
  {
    assert s[q - 1] == s[d..d + |w|][q - 1 - d];
  }

  /** For a word without spaces the documented occurrences are all those that begin a word. */
  lemma {:induction false} DocumentedIff(s: string, w: string, p: nat, q: nat)
    requires p <= q <= |s| && w != "" && ' ' !in w
    ensures q in Documented(s, w, p) <==> At(s, q, w) && WordStart(s, 0, q)
    decreases |s| - p
  {
    hide *;
    DocumentedUnfold(s, w, p);
    var d := Find(s, 0, w, p);
    if d == -1 || q < d {
      FindFirst(s, 0, w, p, q);
      if d != -1 { DocumentedAfter(s, w, d + |w|); }
    } else if q > d {
      if q < d + |w| {
        NoStartInside(s, w, d, q);
        DocumentedAfter(s, w, d + |w|);
      } else {
        DocumentedIff(s, w, d + |w|, q);
      }
    }
  }

  /** An occurrence at the start of a word, directly followed by another. */
  predicate Doubled(s: string, w: string, q: nat) {
    At(s, q, w) && WordStart(s, 0, q) && At(s, q + |w|, w)
  }

  lemma AtEnds(s: string, w: string, q: nat)
    requires At(s, q, w)
    ensures q + |w| <= |s|
  {}

  lemma ExtraIndex(s: string, w: string, v: seq<nat>) returns (k: nat)
    requires ExtraBehind(s, w, v)
    ensures k < |v| && Extra(s, w, v[k] + |w|)
  {
    hide Extra;
    k :| 0 <= k < |v| && Extra(s, w, v[k] + |w|);
  }

  lemma DoubledByExtra(s: string, w: string, q: nat)
    requires q <= |s| && At(s, q, w) && WordStart(s, 0, q) && Extra(s, w, q + |w|)
    ensures Doubled(s, w, q)
  {
    hide At, WordStart;
  }

  lemma ExtraIsDoubled(s: string, w: string) returns (q: nat)
    requires w != "" && ExtraBehind(s, w, Documented(s, w, 0))
    ensures Doubled(s, w, q)
  {
    hide *;
    var k := ExtraIndex(s, w, Documented(s, w, 0));
    q := Documented(s, w, 0)[k];
    DocumentedStarts(s, w, 0, k);
    DoubledByExtra(s, w, q);
  }

  lemma DoubledIsExtra(s: string, w: string, q: nat)
    requires w != "" && ' ' !in w && Doubled(s, w, q)
    ensures ExtraBehind(s, w, Documented(s, w, 0))
  {
    AtEnds(s, w, q);
    AtEnds(s, w, q + |w|);
    NoStartInside(s, w, q, q + |w|);
    DocumentedIff(s, w, 0, q);
    hide Documented, At, WordStart;
    var v := Documented(s, w, 0);
    var k :| 0 <= k < |v| && v[k] == q;
    assert Extra(s, w, v[k] + |w|);
  }

  /**
    For a word without spaces, such as "./": only word starts are visited exactly when no occurrence at a word start is
    directly followed by another.
   */
  lemma WordDocumentedIff(s: string, w: string)
    requires w != "" && ' ' !in w
    ensures Visits(s, w, 0) == Documented(s, w, 0) <==> !exists q: nat :: Doubled(s, w, q)
  {
    hide *;
    VisitsDocumentedIff(s, w);
    if ExtraBehind(s, w, Documented(s, w, 0)) {
      var q := ExtraIsDoubled(s, w);
    }
    if q: nat :| Doubled(s, w, q) {
      DoubledIsExtra(s, w, q);
    }
  }

  /** The second "./" is not at the beginning of a word, and is replaced all the same. */
  lemma AdjacentWordsBothVisited()
    ensures Visits("././a", "./", 0) == [0, 2]
  {
    var s, w := "././a", "./";
    assert At(s, 0, w) && At(s, 2, w) && !At(s, 4, w) && !At(s, 5, w);
    assert Find(s, 4, w, 4) == Find(s, 4, w, 5) == -1;
  }
}
