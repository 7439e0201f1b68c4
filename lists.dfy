/** The java.util.ArrayList operations the whiteboard code relies on, over sequences. */
module Lists {

  /** ArrayList.indexOf: the first position holding x, or -1. */
  function IndexOf<T(==)>(s: seq<T>, x: T): (r: int)
    ensures r == -1 <==> x !in s
    ensures r != -1 ==> 0 <= r < |s| && s[r] == x && x !in s[..r]
  {
    if |s| == 0 then -1
    else if s[0] == x then 0
    else
      var r := IndexOf(s[1..], x);
      assert r != -1 ==> s[..r + 1] == [s[0]] + s[1..][..r];
      if r == -1 then -1 else r + 1
  }

  /** ArrayList.remove(Object): drops the first occurrence of x; a list without x is unchanged. */
  function RemoveFirst<T(==)>(s: seq<T>, x: T): seq<T>
  {
    if |s| == 0 then [] else if s[0] == x then s[1..] else [s[0]] + RemoveFirst(s[1..], x)
  }

  /** Removing x cuts out exactly the cell at its first position, and changes an x-free list not at all. */
  lemma {:induction false} RemoveFirstAt<T>(s: seq<T>, x: T)
    ensures x !in s ==> RemoveFirst(s, x) == s
    ensures x in s ==> RemoveFirst(s, x) == s[..IndexOf(s, x)] + s[IndexOf(s, x) + 1..]
  {
    if |s| > 0 && s[0] != x {
      RemoveFirstAt(s[1..], x);
      if x in s {
        var i := IndexOf(s[1..], x);
        assert s[..i + 1] == [s[0]] + s[1..][..i];
        assert s[i + 2..] == s[1..][i + 1..];
      }
    }
  }

  /** Removing takes one copy of x out of the list's contents, and only when there is one. */
  lemma {:induction false} RemoveFirstContents<T>(s: seq<T>, x: T)
    ensures multiset(RemoveFirst(s, x)) == multiset(s) - multiset{x}
    ensures |RemoveFirst(s, x)| == if x in s then |s| - 1 else |s|
  {
    if |s| > 0 {
      RemoveFirstContents(s[1..], x);
      assert s == [s[0]] + s[1..];
    }
  }

  /** Adding a name and then removing it restores a list that did not hold it. */
  lemma AppendThenRemove<T>(s: seq<T>, x: T)
    requires x !in s
    ensures RemoveFirst(s + [x], x) == s
  {
    RemoveFirstAt(s + [x], x);
    assert IndexOf(s + [x], x) == |s|;
    assert (s + [x])[..|s|] == s;
  }
}
