/** Small definitions that several models share. */
module Collections {
  datatype Option<+T> = None | Some(value: T)

  function Elements<T(==, !new)>(s: seq<T>): (r: set<T>)
    ensures forall x :: x in r <==> x in s
  {
    set x | x in s
  }

  /** memcpy and strncpy: the bytes before and behind the target stay as they were. */
  method Copy<T>(dest: array<T>, at: nat, data: seq<T>)
    requires at + |data| <= dest.Length
    modifies dest
    ensures dest[..at + |data|] == old(dest[..at]) + data
    ensures dest[at + |data|..] == old(dest[at + |data|..])
  {
    ghost var before := dest[..];
    for i := 0 to |data|
      invariant dest[..at + i] == before[..at] + data[..i]
      invariant dest[at + i..] == before[at + i..]
    {
      assert dest[at + i + 1..] == dest[at + i..][1..];
      dest[at + i] := data[i];
      assert dest[..at + i + 1] == dest[..at + i] + [data[i]];
    }
  }
}
