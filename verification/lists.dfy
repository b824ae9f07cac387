/** The Python list operations the planner relies on: indexing (with negative
    indices counting from the end), `list.index` and `list.remove`. */
module Lists {
  import opened Records

  /** Where `s[i]` lands in a Python list of length `n`: negative indices count
      from the end, and anything outside `-n .. n-1` raises IndexError. */
  function PyIndex(n: nat, i: int): (r: Option<nat>)
    ensures r.Some? <==> -(n as int) <= i < n
    ensures r.Some? ==> r.value < n && (r.value == i || r.value == n + i)
    ensures 0 <= i < n ==> r == Some(i)
  {
    if 0 <= i < n then Some(i)
    else if -(n as int) <= i < 0 then Some(n + i)
    else None
  }

  /** Position of the first occurrence of `x` in `s` (Python's `list.index`). */
  function IndexOf<T(==)>(s: seq<T>, x: T): (k: nat)
    requires x in s
    ensures k < |s| && s[k] == x
    ensures forall j :: 0 <= j < k ==> s[j] != x
  {
    if s[0] == x then 0 else 1 + IndexOf(s[1..], x)
  }

  /** Python's `list.remove`: drops the first occurrence of `x`, keeping the
      order of the rest. */
  function RemoveFirst<T(==)>(s: seq<T>, x: T): (r: seq<T>)
    requires x in s
    ensures |r| == |s| - 1
  {
    var k := IndexOf(s, x);
    assert s == s[..k] + [x] + s[k + 1..];
    s[..k] + s[k + 1..]
  }

  /** `list.remove` takes exactly one copy of `x` out of the list. */
  lemma RemoveFirstCounts<T>(s: seq<T>, x: T)
    requires x in s
    ensures multiset(RemoveFirst(s, x)) == multiset(s) - multiset{x}
  {
    var k := IndexOf(s, x);
    assert s == s[..k] + [x] + s[k + 1..];
  }

  /** The elements `list.remove` keeps, by position: those before the removed
      occurrence stay put, those after it move one place forward. */
  lemma RemoveFirstShifts<T>(s: seq<T>, x: T)
    requires x in s
    ensures var r := RemoveFirst(s, x);
            forall i :: 0 <= i < |r| ==> r[i] == if i < IndexOf(s, x) then s[i] else s[i + 1]
  {
  }
}
