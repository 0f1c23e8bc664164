/** Counting, sizing, allocating and replacing, in memory that malloc may refuse. */
module WordReplacer {
  import opened Collections
  import opened WordRewriting

  method CountInitialSubstrings(s: string, w: string) returns (n: nat)
    requires w != ""
    ensures n == |Visits(s, w, 0)|
  {
    hide *;
    n := 0;
    var cur := InitialStrstr(s, 0, w);
    ghost var p := 0;
    VisitsUnfold(s, w, 0);
    while cur != -1
      invariant p <= |s| && cur == Find(s, p, w, p)
      invariant n + |Visits(s, w, p)| == |Visits(s, w, 0)|
      decreases |s| - p
    {
      n := n + 1;
      VisitsUnfold(s, w, p);
      p := cur + |w|;
      cur := InitialStrstr(s, cur + |w|, w);
    }
    VisitsUnfold(s, w, p);
  }

  lemma SegmentsUnfold(s: string, w: string, p: nat, newWord: string)
    requires p <= |s| && w != ""
    ensures var q := Find(s, p, w, p);
            Join(Segments(s, w, p), newWord) ==
            if q == -1 then s[p..] else s[p..q] + newWord + Join(Segments(s, w, q + |w|), newWord)
  {
    hide Find, At;
    var q := Find(s, p, w, p);
    if q != -1 { assert Segments(s, w, p)[1..] == Segments(s, w, q + |w|); }
  }

  lemma ReplacedIs(s: string, oldWord: string, newWord: string)
    requires oldWord != ""
    ensures Replaced(s, oldWord, newWord) == Join(Segments(s, oldWord, 0), newWord)
  {}

  /** The array holds the string and a NUL behind it. */
  ghost predicate HoldsString(dest: array<char>, text: string)
    reads dest
  {
    |text| < dest.Length && dest[..|text|] == text && dest[|text|] == '\0'
  }

  lemma HoldsAfterCopy(dest: array<char>, text: string)
    requires |text| < dest.Length && dest[..|text| + 1] == text + [NUL]
    ensures HoldsString(dest, text)
  {
    assert dest[..|text|] == dest[..|text| + 1][..|text|];
    assert dest[|text|] == dest[..|text| + 1][|text|];
  }

  /** The first `at` characters have been written, and `rest` is what the result still lacks. */
  ghost predicate WrittenTo(dest: array<char>, at: nat, rest: string, r: string)
    reads dest
  {
    at + |rest| == |r| < dest.Length && dest[..at] + rest == r
  }

  lemma NothingWritten(dest: array<char>, r: string)
    requires |r| < dest.Length
    ensures WrittenTo(dest, 0, r, r)
  {
    assert dest[..0] + r == r;
  }

  /** Writes the result and its NUL, and nothing behind them. */
  method ReplaceInitialSubstrings(dest: array<char>, s: string, oldWord: string, newWord: string)
    requires oldWord != "" && |Replaced(s, oldWord, newWord)| < dest.Length
    modifies dest
    ensures HoldsString(dest, Replaced(s, oldWord, newWord))
    ensures dest[|Replaced(s, oldWord, newWord)| + 1..] == old(dest[|Replaced(s, oldWord, newWord)| + 1..])
  {
    hide *;
    ghost var r, before := Replaced(s, oldWord, newWord), dest[..];
    ReplacedIs(s, oldWord, newWord);
    NothingWritten(dest, r);
    var prevSrc, prevDest := 0, 0;
    var cur := InitialStrstr(s, prevSrc, oldWord);
    while cur != -1
      invariant 0 <= prevSrc <= |s| && 0 <= prevDest && cur == Find(s, prevSrc, oldWord, prevSrc)
      invariant WrittenTo(dest, prevDest, Join(Segments(s, oldWord, prevSrc), newWord), r)
      invariant dest[|r| + 1..] == before[|r| + 1..]
      decreases |s| - prevSrc
    {
      SegmentsUnfold(s, oldWord, prevSrc, newWord);
      ghost var rest := Join(Segments(s, oldWord, cur + |oldWord|), newWord);
      CopyBoth(dest, prevDest, s[prevSrc..cur], newWord, rest, r);
      prevDest := prevDest + (cur - prevSrc) + |newWord|;
      prevSrc := cur + |oldWord|;
      cur := InitialStrstr(s, prevSrc, oldWord);
    }
    SegmentsUnfold(s, oldWord, prevSrc, newWord);
    CopyEnd(dest, prevDest, s[prevSrc..], r);
  }

  /** Copies a segment and the new word behind it. */
  method CopyBoth(dest: array<char>, at: nat, segment: string, word: string, ghost rest: string, ghost r: string)
    requires WrittenTo(dest, at, segment + word + rest, r)
    modifies dest
    ensures |r| < dest.Length && WrittenTo(dest, at + |segment| + |word|, rest, r)
    ensures dest[|r| + 1..] == old(dest[|r| + 1..])
  {
    ghost var n, m := at + |segment|, at + |segment| + |word|;
    ghost var before := dest[..];
    Copy(dest, at, segment);
    assert dest[|r| + 1..] == dest[n..][|r| + 1 - n..];
    assert before[|r| + 1..] == before[n..][|r| + 1 - n..];
    ghost var middle := dest[..];
    Copy(dest, at + |segment|, word);
    assert dest[|r| + 1..] == dest[m..][|r| + 1 - m..];
    assert middle[|r| + 1..] == middle[m..][|r| + 1 - m..];
    assert dest[..m] == before[..at] + segment + word;
  }

  method CopyEnd(dest: array<char>, at: nat, segment: string, ghost r: string)
    requires WrittenTo(dest, at, segment, r)
    modifies dest
    ensures |r| < dest.Length && HoldsString(dest, r)
    ensures dest[|r| + 1..] == old(dest[|r| + 1..])
  {
    Copy(dest, at, segment + [NUL]);
    assert dest[..|r| + 1] == r + [NUL];
    HoldsAfterCopy(dest, r);
  }

  // ----- memory -----

  type Str = array?<char>
  type StrArray = array<Str>

  class Memory {
    /** The blocks that have been allocated and not freed. */
    ghost var live: set<object>
    /** How many allocations have failed. */
    ghost var failures: nat

    constructor ()
      ensures live == {} && failures == 0
    {
      live, failures := {}, 0;
    }

    method MallocChars(size: nat) returns (a: Str)
      modifies this
      ensures a == null ==> live == old(live)
      ensures failures == old(failures) + if a == null then 1 else 0
      ensures a != null ==> fresh(a) && a.Length == size && a !in old(live) && live == old(live) + {a}
    {
      if * {
        a := new char[size];
        live := live + {a};
      } else {
        a := null;
        failures := failures + 1;
      }
    }

    method MallocArray(size: nat) returns (a: array?<Str>)
      modifies this
      ensures a == null ==> live == old(live)
      ensures failures == old(failures) + if a == null then 1 else 0
      ensures a != null ==> fresh(a) && a.Length == size && a !in old(live) && live == old(live) + {a}
    {
      if * {
        a := new Str[size];
        live := live + {a};
      } else {
        a := null;
        failures := failures + 1;
      }
    }

    /** Freeing what is not live would be an error. */
    method Free(a: object)
      requires a in live
      modifies `live
      ensures live == old(live) - {a}
    {
      live := live - {a};
    }
  }

  method AllocReplaceInitialSubstrings(m: Memory, s: string, oldWord: string, newWord: string) returns (dest: Str)
    requires oldWord != ""
    modifies m
    ensures dest == null ==> m.live == old(m.live)
    ensures m.failures == old(m.failures) + if dest == null then 1 else 0
    ensures dest != null ==>
              && fresh(dest) && dest !in old(m.live) && m.live == old(m.live) + {dest}
              && dest.Length == |Replaced(s, oldWord, newWord)| + 1 && HoldsString(dest, Replaced(s, oldWord, newWord))
  {
    hide *;
    var occs := CountInitialSubstrings(s, oldWord);
    ReplacedLength(s, oldWord, newWord);
    assert |s| - occs * |oldWord| >= 0;
    var size: nat := |s| - occs * |oldWord| + occs * |newWord|;
    dest := m.MallocChars(size + 1);
    if dest != null {
      ReplaceInitialSubstrings(dest, s, oldWord, newWord);
    }
  }

  function Blocks(strs: seq<array<char>>): set<object> {
    set i | 0 <= i < |strs| :: strs[i] as object
  }

  lemma OneBlockMore(strs: seq<array<char>>, a: array<char>)
    ensures Blocks(strs + [a]) == Blocks(strs) + {a}
  {
    var more := strs + [a];
    assert more[|strs|] == a;
    forall o | o in Blocks(strs) ensures o in Blocks(more) {
      var i :| 0 <= i < |strs| && strs[i] as object == o;
      assert more[i] as object == o;
    }
  }

  ghost predicate Distinct(strs: seq<array<char>>) {
    forall i, j :: 0 <= i < j < |strs| ==> strs[i] != strs[j]
  }

  /** The array points to these strings, in order. */
  ghost predicate PointsTo(r: StrArray, strs: seq<array<char>>)
    reads r
  {
    |strs| < r.Length && forall i :: 0 <= i < |strs| ==> r[i] == strs[i]
  }

  /** Frees the strings up to the sentinel, and the array. */
  method FreeSubstringArray(m: Memory, r: StrArray, ghost strs: seq<array<char>>)
    requires PointsTo(r, strs) && r[|strs|] == null
    requires Distinct(strs) && r !in Blocks(strs) && Blocks(strs) + {r} <= m.live
    modifies m
    ensures m.live == old(m.live) - Blocks(strs) - {r} && m.failures == old(m.failures)
  {
    var k := 0;
    assert strs[..0] == [];
    while r[k] != null
      invariant k <= |strs|
      invariant m.live == old(m.live) - Blocks(strs[..k]) && m.failures == old(m.failures)
      decreases |strs| - k
    {
      assert strs[..k + 1] == strs[..k] + [strs[k]];
      OneBlockMore(strs[..k], strs[k]);
      assert strs[k] in Blocks(strs) && strs[k] !in Blocks(strs[..k]);
      m.Free(r[k]);
      k := k + 1;
    }
    assert strs[..k] == strs;
    m.Free(r);
  }

  /** The strings are the rewritten source strings, in blocks of exactly their size. */
  ghost predicate Rewritten(strs: seq<array<char>>, srcs: seq<string>, oldWord: string, newWord: string)
    requires oldWord != ""
    reads strs
  {
    && |strs| <= |srcs|
    && forall i :: 0 <= i < |strs| ==>
         && strs[i].Length == |Replaced(srcs[i], oldWord, newWord)| + 1
         && HoldsString(strs[i], Replaced(srcs[i], oldWord, newWord))
  }

  /** The array and these strings are all that has been allocated since `before`. */
  ghost predicate Owned(m: Memory, r: StrArray, strs: seq<array<char>>, before: set<object>)
    reads m, r
  {
    && PointsTo(r, strs) && Distinct(strs)
    && r !in before && r !in Blocks(strs) && Blocks(strs) !! before
    && m.live == before + {r} + Blocks(strs)
  }

  lemma OwnedMore(m: Memory, r: StrArray, strs: seq<array<char>>, a: array<char>, before: set<object>)
    requires PointsTo(r, strs) && Distinct(strs) && |strs| + 1 < r.Length && r[|strs|] == a
    requires r !in before && r !in Blocks(strs) && Blocks(strs) !! before
    requires a !in before && a !in Blocks(strs) && a as object != r
    requires m.live == before + {r} + Blocks(strs) + {a}
    ensures Owned(m, r, strs + [a], before)
  {
    OneBlockMore(strs, a);
    forall i | 0 <= i < |strs| ensures strs[i] != a {
      assert strs[i] in Blocks(strs);
    }
  }

  /** One turn of the loop over the strings. */
  method RewriteOne(m: Memory, r: StrArray, srcs: seq<string>, oldWord: string, newWord: string, k: nat,
                    ghost strs: seq<array<char>>, ghost before: set<object>)
    returns (ok: bool, ghost strs': seq<array<char>>)
    requires oldWord != "" && k == |strs| < |srcs| && r.Length == |srcs| + 1
    requires Owned(m, r, strs, before) && Rewritten(strs, srcs, oldWord, newWord)
    modifies m, r
    ensures Owned(m, r, strs', before) && Rewritten(strs', srcs, oldWord, newWord)
    ensures if ok then |strs'| == k + 1 else strs' == strs && r[k] == null
    ensures m.failures == old(m.failures) + if ok then 0 else 1
    ensures forall a :: a in strs' ==> a in strs || fresh(a)
  {
    hide HoldsString, Replaced;
    var str := AllocReplaceInitialSubstrings(m, srcs[k], oldWord, newWord);
    strs' := strs;
    r[k] := str;
    ok := str != null;
    if ok {
      OwnedMore(m, r, strs, str, before);
      strs' := strs + [str];
    }
  }

  /**
    All strings rewritten, in fresh memory; or nothing, and then nothing stays allocated. The caller gets back to
    where it was with FreeSubstringArray.
   */
  method ReplaceInitialSubstringArray(m: Memory, srcs: seq<string>, oldWord: string, newWord: string)
    returns (r: array?<Str>, ghost strs: seq<array<char>>)
    requires oldWord != ""
    modifies m
    ensures r == null ==> m.live == old(m.live)
    ensures m.failures == old(m.failures) + if r == null then 1 else 0
    ensures r != null ==>
              && fresh(r) && r.Length == |srcs| + 1 && |strs| == |srcs| && r[|srcs|] == null
              && Owned(m, r, strs, old(m.live)) && Rewritten(strs, srcs, oldWord, newWord)
  {
    var n := |srcs|;
    strs := [];
    r := m.MallocArray(n + 1);
    if r == null {
      return;
    }
    ghost var before := old(m.live);
    var k, ok := 0, true;
    assert Blocks([]) == {};
    while k < n && ok
      invariant k == |strs| <= n && r != null && fresh(r) && r.Length == n + 1
      invariant Owned(m, r, strs, before) && Rewritten(strs, srcs, oldWord, newWord)
      invariant !ok ==> k < n && r[k] == null
      invariant m.failures == old(m.failures) + if ok then 0 else 1
      decreases n - k, ok
    {
      hide Owned, Rewritten;
      ok, strs := RewriteOne(m, r, srcs, oldWord, newWord, k, strs, before);
      if ok {
        k := k + 1;
      }
    }
    if k == n {
      r[n] := null;
    } else {
      FreeSubstringArray(m, r, strs);
      r := null;
    }
  }

  /** As the callers use the two functions: after both, exactly what was live before is live. */
  method RewriteUseAndFree(m: Memory, srcs: seq<string>, oldWord: string, newWord: string) returns (used: bool)
    requires oldWord != ""
    modifies m
    ensures m.live == old(m.live)
    ensures used <==> m.failures == old(m.failures)
  {
    var r, strs := ReplaceInitialSubstringArray(m, srcs, oldWord, newWord);
    used := r != null;
    if r != null {
      FreeSubstringArray(m, r, strs);
    }
  }
}
